/** `url_for`: filling a named path's placeholders, in whatever order the parameters come. */
module Substitution {
  import opened Text
  import opened Tries
  import opened Bindings

  // ---------- First occurrences ----------

  predicate OccursAt(s: string, n: string, j: nat) {
    j + |n| <= |s| && s[j..j + |n|] == n
  }

  ghost predicate Occurs(s: string, n: string) {
    exists j: nat :: OccursAt(s, n, j)
  }

  ghost predicate First(s: string, n: string, j: nat) {
    OccursAt(s, n, j) && forall i: nat | i < j :: !OccursAt(s, n, i)
  }

  lemma {:induction false} FirstExists(s: string, n: string, j: nat)
    requires OccursAt(s, n, j)
    ensures exists f: nat :: First(s, n, f)
    decreases j
  {
    if !First(s, n, j) {
      var i: nat :| i < j && OccursAt(s, n, i);
      FirstExists(s, n, i);
    }
  }

  /** The first position at which `n` occurs in `s`. */
  ghost function Find(s: string, n: string): (r: Option<nat>)
    ensures r.Some? <==> Occurs(s, n)
    ensures r.Some? ==> First(s, n, r.value)
  {
    if Occurs(s, n) then
      var j: nat :| OccursAt(s, n, j);
      FirstExists(s, n, j);
      var f: nat :| First(s, n, f);
      Some(f)
    else None
  }

  /** The path with the first occurrence of `n`, if any, replaced. */
  ghost function Replaced(s: string, n: string, v: string): string {
    var r := Find(s, n);
    if r.Some? then s[..r.value] + v + s[r.value + |n|..] else s
  }

  /** Something without a slash occurs in one piece or the other, never across the slash. */
  lemma OccursInPieces(p: string, rest: string, n: string, j: nat)
    requires '/' !in n && n != ""
    ensures OccursAt(p + "/" + rest, n, j)
            <==> OccursAt(p, n, j) || (j > |p| && OccursAt(rest, n, j - |p| - 1))
  {
    var s := p + "/" + rest;
    if j + |n| <= |s| {
      if j <= |p| < j + |n| {
        assert s[j..j + |n|][|p| - j] == '/';
      } else if j + |n| <= |p| {
        assert s[j..j + |n|] == p[j..j + |n|];
      } else {
        assert s[j..j + |n|] == rest[j - |p| - 1..j - |p| - 1 + |n|];
      }
    }
  }

  lemma FirstIs(s: string, n: string, j: nat)
    requires First(s, n, j)
    ensures Find(s, n) == Some(j)
  {
    var r := Find(s, n).value;
    assert OccursAt(s, n, r) && OccursAt(s, n, j);
  }

  /** The first occurrence is the first piece's, if it has one, else the rest's. */
  lemma FindInPieces(p: string, rest: string, n: string)
    requires '/' !in n && n != ""
    ensures Occurs(p, n) ==> Find(p + "/" + rest, n) == Find(p, n)
    ensures !Occurs(p, n) && Occurs(rest, n) ==> Find(p + "/" + rest, n) == Some(|p| + 1 + Find(rest, n).value)
    ensures !Occurs(p, n) && !Occurs(rest, n) ==> Find(p + "/" + rest, n) == None
  {
    var s := p + "/" + rest;
    if Occurs(p, n) || Occurs(rest, n) {
      var j := if Occurs(p, n) then Find(p, n).value else |p| + 1 + Find(rest, n).value;
      OccursInPieces(p, rest, n, j);
      forall i: nat | i < j
        ensures !OccursAt(s, n, i)
      {
        OccursInPieces(p, rest, n, i);
      }
      FirstIs(s, n, j);
    } else if Find(s, n).Some? {
      OccursInPieces(p, rest, n, Find(s, n).value);
    }
  }

  lemma ReplacedInFirst(p: string, rest: string, n: string, v: string)
    requires '/' !in n && n != "" && Occurs(p, n)
    ensures Replaced(p + "/" + rest, n, v) == Replaced(p, n, v) + "/" + rest
  {
    FindInPieces(p, rest, n);
    var j := Find(p, n).value;
    CutLeft(p, rest, j, j + |n|, v);
  }

  lemma ReplacedInRest(p: string, rest: string, n: string, v: string)
    requires '/' !in n && n != "" && !Occurs(p, n)
    ensures Replaced(p + "/" + rest, n, v) == p + "/" + Replaced(rest, n, v)
  {
    FindInPieces(p, rest, n);
    if Occurs(rest, n) {
      ReplacedBehind(p + "/" + rest, p, rest, n, v, Find(rest, n).value);
    }
  }

  lemma ReplacedBehind(s: string, p: string, rest: string, n: string, v: string, j: nat)
    requires s == p + "/" + rest && Find(s, n) == Some(|p| + 1 + j) && Find(rest, n) == Some(j)
    ensures Replaced(s, n, v) == p + "/" + Replaced(rest, n, v)
  {
    CutRight(p, rest, j, j + |n|, v);
  }

  lemma CutLeft(p: string, rest: string, i: nat, j: nat, v: string)
    requires i <= j <= |p|
    ensures (p + "/" + rest)[..i] + v + (p + "/" + rest)[j..] == (p[..i] + v + p[j..]) + "/" + rest
  {
    var s := p + "/" + rest;
    assert s[..i] == p[..i] && s[j..] == p[j..] + "/" + rest;
  }

  lemma CutRight(p: string, rest: string, i: nat, j: nat, v: string)
    requires i <= j <= |rest|
    ensures (p + "/" + rest)[..|p| + 1 + i] + v + (p + "/" + rest)[|p| + 1 + j..]
        == p + "/" + (rest[..i] + v + rest[j..])
  {
    var s := p + "/" + rest;
    assert s[..|p| + 1 + i] == p + "/" + rest[..i] && s[|p| + 1 + j..] == rest[j..];
  }

  /** Replacing in a joined path replaces in the one piece that holds the placeholder, if any. */
  lemma {:induction false} ReplacedInJoin(pieces: seq<string>, i: nat, n: string, v: string)
    requires pieces != [] && i < |pieces| && '/' !in n && n != ""
    requires forall k | 0 <= k < |pieces| && k != i :: !Occurs(pieces[k], n)
    ensures Replaced(Join(pieces, '/'), n, v) == Join(pieces[i := Replaced(pieces[i], n, v)], '/')
  {
    if |pieces| > 1 {
      var p, rest := pieces[0], Join(pieces[1..], '/');
      assert Join(pieces, '/') == p + "/" + rest;
      if Occurs(p, n) {
        ReplacedInFirst(p, rest, n, v);
      } else {
        ReplacedInRest(p, rest, n, v);
      }
      if i == 0 {
        if !Occurs(p, n) {
          ReplacedNowhere(pieces[1..], n, v);
          assert pieces[0 := p] == pieces;
        }
        assert pieces[0 := Replaced(p, n, v)][1..] == pieces[1..];
      } else {
        ReplacedInJoin(pieces[1..], i - 1, n, v);
        assert pieces[i := Replaced(pieces[i], n, v)][1..] == pieces[1..][i - 1 := Replaced(pieces[i], n, v)];
      }
    } else {
      assert pieces[0 := Replaced(pieces[0], n, v)] == [Replaced(pieces[0], n, v)];
    }
  }

  lemma {:induction false} ReplacedNowhere(pieces: seq<string>, n: string, v: string)
    requires '/' !in n && n != ""
    requires forall k | 0 <= k < |pieces| :: !Occurs(pieces[k], n)
    ensures Replaced(Join(pieces, '/'), n, v) == Join(pieces, '/')
  {
    if pieces == [] {
      assert forall j: nat :: !OccursAt("", n, j);
    } else if |pieces| > 1 {
      ReplacedInRest(pieces[0], Join(pieces[1..], '/'), n, v);
      ReplacedNowhere(pieces[1..], n, v);
    }
  }

  /** `std::string::find` for a string. */
  method FindSubstring(s: string, n: string) returns (r: Option<nat>)
    ensures r == Find(s, n)
  {
    var j := 0;
    while j + |n| <= |s|
      invariant forall i: nat | i < j :: !OccursAt(s, n, i)
    {
      if s[j..j + |n|] == n {
        FirstIs(s, n, j);
        return Some(j);
      }
      j := j + 1;
    }
    r := None;
  }

  // ---------- Filling all placeholders ----------

  function Placeholder(key: string): string {
    ":" + key
  }

  /** The path after replacing the keys in the given order. */
  ghost function FilledIn(path: string, params: Params, order: seq<string>): string
    requires forall k | k in order :: k in params
  {
    if order == [] then path
    else
      var k := order[|order| - 1];
      Replaced(FilledIn(path, params, order[..|order| - 1]), Placeholder(k), params[k])
  }

  ghost predicate Listing(order: seq<string>, keys: set<string>) {
    multiset(order) == multiset(keys)
  }

  lemma ListingGrows(order: seq<string>, keys: set<string>, k: string)
    requires Listing(order, keys) && k !in keys
    ensures Listing(order + [k], keys + {k})
  {
  }

  /** Finds the placeholder and puts the value in its place. */
  method ReplaceFirst(text: string, placeholder: string, value: string) returns (url: string)
    ensures url == Replaced(text, placeholder, value)
  {
    url := text;
    var pos := FindSubstring(url, placeholder);
    if pos.Some? {
      url := url[..pos.value] + value + url[pos.value + |placeholder|..];
    }
  }

  /** `url` is the path with the parameters filled in, one after the other, in some order. */
  ghost predicate IsFilling(url: string, path: string, params: Params) {
    exists order :: Listing(order, params.Keys) && (forall k | k in order :: k in params)
        && url == FilledIn(path, params, order)
  }

  /** The loop over the parameters, which come in any order. */
  method Fill(path: string, params: Params) returns (url: string)
    ensures IsFilling(url, path, params)
  {
    url := path;
    ghost var order: seq<string> := [];
    var keys := params.Keys;
    while keys != {}
      invariant keys <= params.Keys && Listing(order, params.Keys - keys)
      invariant (forall k | k in order :: k in params) && url == FilledIn(path, params, order)
    {
      var key :| key in keys;
      url := ReplaceFirst(url, Placeholder(key), params[key]);
      ListingGrows(order, params.Keys - keys, key);
      assert (order + [key])[..|order|] == order;
      order := order + [key];
      assert params.Keys - keys + {key} == params.Keys - (keys - {key});
      keys := keys - {key};
    }
    assert params.Keys - keys == params.Keys;
  }

  /** One piece with its placeholder, if it is one of the given keys', filled. */
  function FillPiece(piece: string, params: Params, keys: set<string>): string
    requires keys <= params.Keys
  {
    if piece != "" && piece[0] == ':' && piece[1..] in keys then params[piece[1..]] else piece
  }

  function FillPieces(pieces: seq<string>, params: Params, keys: set<string>): (r: seq<string>)
    requires keys <= params.Keys
    ensures |r| == |pieces|
  {
    seq(|pieces|, i requires 0 <= i < |pieces| => FillPiece(pieces[i], params, keys))
  }

  /** A key's placeholder occurs only as a whole piece, and in at most one. */
  ghost predicate OwnPiece(pieces: seq<string>, key: string) {
    && (forall i | 0 <= i < |pieces| :: Occurs(pieces[i], Placeholder(key)) ==> pieces[i] == Placeholder(key))
    && (forall i, j | 0 <= i < j < |pieces| :: !(pieces[i] == pieces[j] == Placeholder(key)))
  }

  ghost predicate Unambiguous(pieces: seq<string>, params: Params) {
    && (forall k | k in params :: '/' !in k && OwnPiece(pieces, k))
    && (forall k | k in params :: ':' !in params[k] && '/' !in params[k])
  }

  lemma NoColonNoPlaceholder(s: string, key: string)
    requires ':' !in s
    ensures !Occurs(s, Placeholder(key))
  {
    forall j: nat
      ensures !OccursAt(s, Placeholder(key), j)
    {
      var n := Placeholder(key);
      if j + |n| <= |s| {
        assert s[j..j + |n|][0] == s[j] && s[j] in s;
      }
    }
  }

  lemma WholeReplaced(n: string, v: string)
    ensures Replaced(n, n, v) == v
  {
    assert n[0..0 + |n|] == n;
    FirstIs(n, n, 0);
  }

  /** Filling one more key, at the path, is filling its piece. */
  lemma FillOneMore(pieces: seq<string>, params: Params, done: set<string>, key: string)
    requires pieces != [] && Unambiguous(pieces, params) && done <= params.Keys && key in params && key !in done
    ensures Replaced(Join(FillPieces(pieces, params, done), '/'), Placeholder(key), params[key])
            == Join(FillPieces(pieces, params, done + {key}), '/')
  {
    var n := Placeholder(key);
    var before, after := FillPieces(pieces, params, done), FillPieces(pieces, params, done + {key});
    assert OwnPiece(pieces, key) && n[1..] == key;
    forall i | 0 <= i < |pieces|
      ensures pieces[i] == n ==> before[i] == n && after[i] == params[key]
      ensures pieces[i] != n ==> before[i] == after[i] && !Occurs(before[i], n)
    {
      if pieces[i] != n && before[i] != pieces[i] {
        NoColonNoPlaceholder(before[i], key);
      }
    }
    if i :| 0 <= i < |pieces| && pieces[i] == n {
      ReplacedInJoin(before, i, n, params[key]);
      WholeReplaced(n, params[key]);
      assert before[i := params[key]] == after;
    } else {
      ReplacedNowhere(before, n, params[key]);
      assert before == after;
    }
  }

  lemma ListingShrinks(order: seq<string>, keys: set<string>)
    requires order != [] && Listing(order, keys)
    ensures var k, rest := order[|order| - 1], order[..|order| - 1];
            k in keys && Listing(rest, keys - {k}) && keys - {k} + {k} == keys && forall l | l in rest :: l in order
  {
    var k, rest := order[|order| - 1], order[..|order| - 1];
    assert order == rest + [k];
    assert k in multiset(order) && k in keys;
    assert multiset(rest) == multiset(keys) - multiset{k} == multiset(keys - {k});
  }

  /** Whatever the order, the filled path is the path with every placeholder piece filled. */
  lemma {:induction false} OrderDoesNotMatter(pieces: seq<string>, params: Params, order: seq<string>,
      keys: set<string>)
    requires pieces != [] && Unambiguous(pieces, params)
    requires keys <= params.Keys && Listing(order, keys) && forall k | k in order :: k in params
    ensures FilledIn(Join(pieces, '/'), params, order) == Join(FillPieces(pieces, params, keys), '/')
  {
    if order == [] {
      assert multiset(keys) == multiset{};
      assert keys == {};
      assert FillPieces(pieces, params, keys) == pieces;
    } else {
      var k, rest := order[|order| - 1], order[..|order| - 1];
      ListingShrinks(order, keys);
      OrderDoesNotMatter(pieces, params, rest, keys - {k});
      FillOneMore(pieces, params, keys - {k}, k);
    }
  }

  // ---------- Names that are never ambiguous ----------

  ghost predicate PrefixFree(names: set<string>) {
    forall a, b | a in names && b in names && a <= b :: a == b
  }

  /** Pieces are placeholders of colon-free, prefix-free names, once each, or literals that hold none of them. */
  ghost predicate PlainPieces(pieces: seq<string>, names: set<string>) {
    && PrefixFree(names)
    && (forall n | n in names :: ':' !in n && '/' !in n)
    && (forall i | 0 <= i < |pieces| :: PlainPiece(pieces[i], names))
    && (forall i, j | 0 <= i < j < |pieces| && pieces[i] == pieces[j] :: pieces[i] == "" || pieces[i][0] != ':')
  }

  ghost predicate PlainPiece(piece: string, names: set<string>) {
    if piece != "" && piece[0] == ':' then piece[1..] in names
    else forall n | n in names :: !Occurs(piece, Placeholder(n))
  }

  lemma ColonLeads(p: string, j: nat)
    requires j < |p| && p[j] == ':' && ':' !in p[1..]
    ensures j == 0
  {
    assert forall i | 0 < i < |p| :: p[i] == p[1..][i - 1];
  }

  lemma PlainIsUnambiguous(pieces: seq<string>, params: Params)
    requires PlainPieces(pieces, params.Keys)
    requires forall k | k in params :: ':' !in params[k] && '/' !in params[k]
    ensures Unambiguous(pieces, params)
  {
    forall k | k in params
      ensures OwnPiece(pieces, k)
    {
      var n := Placeholder(k);
      forall i | 0 <= i < |pieces| && Occurs(pieces[i], n)
        ensures pieces[i] == n
      {
        var p := pieces[i];
        var j: nat :| OccursAt(p, n, j);
        assert p[j..j + |n|][0] == ':' && p[j] in p;
        ColonLeads(p, j);
        assert p[..|n|] == n;
        assert k == p[..|n|][1..] == p[1..][..|k|];
        assert k <= p[1..];
        assert p == ":" + p[1..];
      }
      forall i, j | 0 <= i < j < |pieces|
        ensures !(pieces[i] == pieces[j] == n)
      {
        assert n[0] == ':';
      }
    }
  }
}
