/** Strings: searching for a character, splitting on a separator, joining. */
module Text {

  /** Position of the first `c` in `s`, or `|s|` when there is none. */
  function IndexOf(s: string, c: char): (i: nat)
    ensures i <= |s|
  {
    if s == "" then 0
    else if s[0] == c then 0
    else 1 + IndexOf(s[1..], c)
  }

  lemma {:induction false} IndexOfFirst(s: string, c: char)
    ensures var i := IndexOf(s, c);
            c !in s[..i] && (i < |s| ==> s[i] == c)
  {
    if s != "" && s[0] != c {
      IndexOfFirst(s[1..], c);
      var i := IndexOf(s, c);
      assert s[..i] == [s[0]] + s[1..][..i - 1];
    }
  }

  /** The separator right behind a prefix that lacks it is the first one. */
  lemma {:induction false} IndexBehind(p: string, c: char, rest: string)
    requires c !in p
    ensures IndexOf(p + [c] + rest, c) == |p|
    ensures (p + [c] + rest)[..|p|] == p && (p + [c] + rest)[|p| + 1..] == rest
  {
    if p == "" {
    } else {
      IndexBehind(p[1..], c, rest);
      assert (p + [c] + rest)[1..] == p[1..] + [c] + rest;
    }
  }

  /** The pieces of `s` between separators; never empty. */
  function SplitOn(s: string, sep: char): (r: seq<string>)
    ensures |r| >= 1
  {
    if s == "" then [""]
    else
      var r := SplitOn(s[1..], sep);
      if s[0] == sep then [""] + r else [[s[0]] + r[0]] + r[1..]
  }

  function Join(parts: seq<string>, sep: char): string
  {
    if parts == [] then ""
    else if |parts| == 1 then parts[0]
    else parts[0] + [sep] + Join(parts[1..], sep)
  }

  ghost predicate Without(parts: seq<string>, sep: char) {
    forall p | p in parts :: sep !in p
  }

  /** Splitting off one separator-free piece. */
  lemma {:induction false} SplitCons(p: string, rest: string, sep: char)
    requires sep !in p
    ensures SplitOn(p + [sep] + rest, sep) == [p] + SplitOn(rest, sep)
  {
    var s := p + [sep] + rest;
    if p == "" {
      assert s[1..] == rest;
    } else {
      assert s[1..] == p[1..] + [sep] + rest;
      SplitCons(p[1..], rest, sep);
      assert [p[0]] + p[1..] == p;
      var r := SplitOn(s[1..], sep);
      assert r[0] == p[1..] && r[1..] == SplitOn(rest, sep);
    }
  }

  lemma {:induction false} SplitAtom(p: string, sep: char)
    requires sep !in p
    ensures SplitOn(p, sep) == [p]
  {
    if p == "" {
    } else {
      SplitAtom(p[1..], sep);
      assert [p[0]] + p[1..] == p;
    }
  }

  /** Splitting undoes joining. */
  lemma {:induction false} SplitJoin(parts: seq<string>, sep: char)
    requires parts != [] && Without(parts, sep)
    ensures SplitOn(Join(parts, sep), sep) == parts
  {
    if |parts| == 1 {
      SplitAtom(parts[0], sep);
    } else {
      SplitJoin(parts[1..], sep);
      SplitCons(parts[0], Join(parts[1..], sep), sep);
      assert [parts[0]] + parts[1..] == parts;
    }
  }

  /** Joining undoes splitting, and no piece holds the separator. */
  lemma {:induction false} JoinSplit(s: string, sep: char)
    ensures Join(SplitOn(s, sep), sep) == s
    ensures Without(SplitOn(s, sep), sep)
  {
    if s == "" {
    } else {
      JoinSplit(s[1..], sep);
      var r := SplitOn(s[1..], sep);
      assert [s[0]] + s[1..] == s;
      if s[0] == sep {
        assert ([""] + r)[1..] == r;
      } else {
        assert ([[s[0]] + r[0]] + r[1..])[1..] == r[1..];
      }
    }
  }

  /** Splitting one character further. */
  lemma {:induction false} SplitSnoc(s: string, c: char, sep: char)
    ensures SplitOn(s + [c], sep) == Further(SplitOn(s, sep), c, sep)
  {
    if s == "" {
      assert "" + [c] == [c];
      var none: string := [c][1..];
      assert none == "" && SplitOn(none, sep) == [""];
      assert [c] + "" == [c];
      assert [[c]] + [""][1..] == [[c]];
      assert [""] + [""] == ["", ""];
    } else {
      SplitSnoc(s[1..], c, sep);
      assert (s + [c])[1..] == s[1..] + [c];
      FurtherAfter(SplitOn(s[1..], sep), s[0], c, sep);
    }
  }

  /** The pieces after one more character at the end. */
  function Further(r: seq<string>, c: char, sep: char): seq<string>
    requires |r| >= 1
  {
    if c == sep then r + [""] else r[..|r| - 1] + [r[|r| - 1] + [c]]
  }

  lemma FurtherAfter(r: seq<string>, a: char, c: char, sep: char)
    requires |r| >= 1
    ensures Further([""] + r, c, sep) == [""] + Further(r, c, sep)
    ensures Further([[a] + r[0]] + r[1..], c, sep) == [[a] + Further(r, c, sep)[0]] + Further(r, c, sep)[1..]
  {
    if c != sep {
      var longer := [[a] + r[0]] + r[1..];
      if |r| == 1 {
        assert [a] + (r[0] + [c]) == ([a] + r[0]) + [c];
      } else {
        assert longer[..|longer| - 1] == [[a] + r[0]] + r[1..|r| - 1];
        assert Further(r, c, sep)[1..] == r[1..|r| - 1] + [r[|r| - 1] + [c]];
      }
      assert ([""] + r)[..|r|] == [""] + r[..|r| - 1];
    }
  }
}
