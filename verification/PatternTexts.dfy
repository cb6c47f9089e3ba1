/** How the segments of a pattern are spelled, and that reading them back gives them again. */
module PatternTexts {
  import opened Text
  import opened Patterns

  function LastIs(s: string, c: char): bool {
    s != "" && s[|s| - 1] == c
  }

  /** What stands behind a parameter's name; a default that ends in `?` needs one more. */
  function PrintOption(optional: bool, defaultValue: string): string {
    if !optional then ""
    else if defaultValue == "" then "?"
    else if LastIs(defaultValue, '?') then "=" + defaultValue + "?"
    else "=" + defaultValue
  }

  /** `literal`, `:name`, `:name?`, `:name=default`, `*name` or `<name:regex>`. */
  function PrintSegment(s: Segment): string {
    match s.kind
    case STATIC => s.part
    case PARAMETER => ":" + (s.part + PrintOption(s.optional, s.defaultValue))
    case WILDCARD => "*" + s.part
    case REGEX => "<" + (s.part + [':'] + s.regex) + ">"
  }

  /** A segment that can be spelled: its name cannot be taken for more than a name. */
  ghost predicate Printable(s: Segment) {
    && (s.kind != REGEX ==> s.regex == "") && (!s.optional ==> s.defaultValue == "")
    && (s.kind != PARAMETER ==> !s.optional)
    && match s.kind
       case STATIC => s.part != "" && s.part[0] != ':' && s.part[0] != '*' && !(s.part[0] == '<' && LastIs(s.part, '>'))
       case PARAMETER => '=' !in s.part && (!s.optional ==> s.part != "" && !LastIs(s.part, '?'))
       case WILDCARD => true
       case REGEX => ':' !in s.part
  }

  lemma Absent(s: string, c: char)
    ensures c !in s <==> IndexOf(s, c) == |s|
    ensures c !in s[..IndexOf(s, c)]
  {
    IndexOfFirst(s, c);
    assert s[..|s|] == s;
  }

  lemma NoOption(part: string)
    requires part != ""
    ensures ReadParameter(part) == Segment(PARAMETER, part, false, "", "") <==> '=' !in part && !LastIs(part, '?')
  {
    Absent(part, '=');
  }

  lemma BareOption(part: string)
    ensures ReadParameter(part + "?") == Segment(PARAMETER, part, true, "", "") <==> '=' !in part
  {
    assert (part + "?")[..|part|] == part;
    Absent(part, '=');
  }

  lemma DefaultOption(part: string, defaultValue: string)
    requires defaultValue != ""
    ensures var name := part + PrintOption(true, defaultValue);
            ReadParameter(name) == Segment(PARAMETER, part, true, defaultValue, "") <==> '=' !in part
  {
    var name, bare := part + PrintOption(true, defaultValue), part + ['='] + defaultValue;
    if LastIs(defaultValue, '?') {
      assert name == bare + "?" && name[..|name| - 1] == bare;
    } else {
      assert name == bare;
    }
    if '=' !in part {
      IndexBehind(part, '=', defaultValue);
    } else {
      Absent(bare, '=');
    }
  }

  lemma ParameterRoundTrip(s: Segment)
    requires s.kind == PARAMETER
    ensures Readable(PrintSegment(s)) && ReadSegment(PrintSegment(s)) == s <==> Printable(s)
  {
    var name := s.part + PrintOption(s.optional, s.defaultValue);
    assert PrintSegment(s)[1..] == name;
    if !s.optional {
      assert name == s.part;
      if name != "" {
        NoOption(name);
      }
    } else if s.defaultValue == "" {
      BareOption(s.part);
    } else {
      DefaultOption(s.part, s.defaultValue);
    }
  }

  lemma RegexRoundTrip(s: Segment)
    requires s.kind == REGEX
    ensures Readable(PrintSegment(s)) && (ReadSegment(PrintSegment(s)) == s <==> Printable(s))
  {
    var text, content := PrintSegment(s), s.part + [':'] + s.regex;
    assert text[1..|text| - 1] == content && text[0] == '<';
    if ':' !in s.part {
      IndexBehind(s.part, ':', s.regex);
    } else {
      Absent(content, ':');
    }
  }

  lemma StaticRoundTrip(s: Segment)
    requires s.kind == STATIC
    ensures Readable(PrintSegment(s)) && ReadSegment(PrintSegment(s)) == s <==> Printable(s)
  {
    var text := PrintSegment(s);
    if text != "" && text != ":" {
      assert text[0] == ':' ==> ReadSegment(text).kind == PARAMETER;
    }
  }

  /** Reading a printed segment gives it back exactly when it is printable. */
  lemma SegmentRoundTrip(s: Segment)
    ensures Readable(PrintSegment(s)) && ReadSegment(PrintSegment(s)) == s <==> Printable(s)
  {
    match s.kind
    case STATIC => StaticRoundTrip(s);
    case PARAMETER => ParameterRoundTrip(s);
    case WILDCARD => assert PrintSegment(s)[0] == '*' && PrintSegment(s)[1..] == s.part;
    case REGEX => RegexRoundTrip(s);
  }

  /** The spellings that are not the printed one. */
  ghost predicate OtherSpelling(seg: string, s: Segment) {
    || (s.kind == PARAMETER && s.defaultValue != "" && !LastIs(s.defaultValue, '?') && seg == PrintSegment(s) + "?")
    || (s.kind == PARAMETER && s.optional && s.defaultValue == "" && seg in {":" + s.part + "=", ":" + s.part + "=?"})
    || (s.kind == REGEX && s.regex == ".*" && seg == "<" + s.part + ">")
  }

  function Tail(defaultValue: string, marked: bool): string {
    if marked then "=" + defaultValue + "?" else "=" + defaultValue
  }

  lemma ParameterSpelling(seg: string)
    requires Readable(seg) && seg[0] == ':'
    ensures var s := ReadSegment(seg); Printable(s) && (seg == PrintSegment(s) || OtherSpelling(seg, s))
  {
    var name := seg[1..];
    assert seg == ":" + name;
    var marked := LastIs(name, '?');
    var bare := if marked then name[..|name| - 1] else name;
    Absent(bare, '=');
    if '=' in bare {
      var part, defaultValue := CutAtEquals(name, bare, marked);
      DefaultSpelling(seg, part, defaultValue, marked);
    } else {
      assert ReadSegment(seg) == Segment(PARAMETER, bare, marked, "", "");
      assert name == bare + PrintOption(marked, "");
    }
  }

  lemma CutAtEquals(name: string, bare: string, marked: bool) returns (part: string, defaultValue: string)
    requires '=' in bare && marked == LastIs(name, '?') && bare == if marked then name[..|name| - 1] else name
    ensures name == part + Tail(defaultValue, marked) && '=' !in part && (!marked ==> !LastIs(defaultValue, '?'))
  {
    var eq := IndexOf(bare, '=');
    IndexOfFirst(bare, '=');
    Absent(bare, '=');
    part, defaultValue := bare[..eq], bare[eq + 1..];
    assert bare == part + ("=" + defaultValue);
    assert marked ==> name == bare + "?";
  }

  lemma DefaultSpelling(seg: string, part: string, defaultValue: string, marked: bool)
    requires seg == ":" + (part + Tail(defaultValue, marked)) && '=' !in part
    requires !marked ==> !LastIs(defaultValue, '?')
    ensures var s := ReadSegment(seg); Printable(s) && (seg == PrintSegment(s) || OtherSpelling(seg, s))
  {
    ReadsDefault(seg, part, defaultValue, marked);
    SpelledDefault(seg, part, defaultValue, marked);
  }

  lemma ReadsDefault(seg: string, part: string, defaultValue: string, marked: bool)
    requires seg == ":" + (part + Tail(defaultValue, marked)) && '=' !in part
    requires !marked ==> !LastIs(defaultValue, '?')
    ensures ReadSegment(seg) == Segment(PARAMETER, part, true, defaultValue, "")
  {
    var bare := part + ['='] + defaultValue;
    assert seg[1..] == part + Tail(defaultValue, marked);
    IndexBehind(part, '=', defaultValue);
    if marked {
      TailIs(part, defaultValue);
      ReadMarked(bare);
    } else {
      assert part + Tail(defaultValue, false) == bare;
      assert !LastIs(bare, '?');
    }
  }

  lemma TailIs(part: string, defaultValue: string)
    ensures part + Tail(defaultValue, true) == part + ['='] + defaultValue + "?"
  {
  }

  lemma ReadMarked(bare: string)
    ensures var eq := IndexOf(bare, '=');
            eq < |bare| ==> ReadParameter(bare + "?") == Segment(PARAMETER, bare[..eq], true, bare[eq + 1..], "")
  {
    assert (bare + "?")[..|bare|] == bare;
  }

  lemma SpelledDefault(seg: string, part: string, defaultValue: string, marked: bool)
    requires seg == ":" + (part + Tail(defaultValue, marked)) && '=' !in part
    requires !marked ==> !LastIs(defaultValue, '?')
    ensures var s := Segment(PARAMETER, part, true, defaultValue, "");
            Printable(s) && (seg == PrintSegment(s) || OtherSpelling(seg, s))
  {
    if defaultValue == "" {
      assert "=" + "" + "?" == "=?" && "=" + "" == "=";
      Regrouped(part, if marked then "=?" else "=");
    } else if marked && !LastIs(defaultValue, '?') {
      MarkedText(part, "=" + defaultValue);
    }
  }

  lemma Regrouped(a: string, b: string)
    ensures ":" + (a + b) == ":" + a + b
  {
  }

  lemma MarkedText(a: string, b: string)
    ensures ":" + (a + (b + "?")) == ":" + (a + b) + "?"
  {
  }

  lemma RegexSpelling(seg: string)
    requires Readable(seg) && seg[0] == '<' && LastIs(seg, '>')
    ensures var s := ReadSegment(seg); Printable(s) && (seg == PrintSegment(s) || OtherSpelling(seg, s))
  {
    var content := seg[1..|seg| - 1];
    var colon := IndexOf(content, ':');
    assert seg == "<" + content + ">";
    IndexOfFirst(content, ':');
    if colon < |content| {
      assert content == content[..colon] + [':'] + content[colon + 1..];
    } else {
      Absent(content, ':');
    }
  }

  /** Every segment that can be read is printable, and its text is the printed one or one of four others. */
  lemma EverySpelling(seg: string)
    requires Readable(seg)
    ensures var s := ReadSegment(seg); Printable(s) && (seg == PrintSegment(s) || OtherSpelling(seg, s))
  {
    if seg[0] == ':' {
      ParameterSpelling(seg);
    } else if seg[0] == '*' {
      assert seg == "*" + seg[1..];
    } else if seg[0] == '<' && LastIs(seg, '>') {
      RegexSpelling(seg);
    }
  }

  /** The other spellings read the same. */
  lemma OthersReadTheSame(seg: string, s: Segment)
    requires Printable(s) && OtherSpelling(seg, s)
    ensures Readable(seg) && ReadSegment(seg) == s
  {
    if s.kind == REGEX {
      assert seg[1..|seg| - 1] == s.part;
      Absent(s.part, ':');
    } else if s.defaultValue == "" {
      var marked := seg == ":" + s.part + "=?";
      assert Tail("", marked) == if marked then "=?" else "=";
      Regrouped(s.part, Tail("", marked));
      ReadsDefault(seg, s.part, "", marked);
    } else {
      MarkedText(s.part, "=" + s.defaultValue);
      ReadsDefault(seg, s.part, s.defaultValue, true);
    }
  }

  // ---------- Whole patterns ----------

  function PrintAll(segs: seq<Segment>): (r: seq<string>)
    ensures |r| == |segs|
  {
    seq(|segs|, i requires 0 <= i < |segs| => PrintSegment(segs[i]))
  }

  /** As in "/users/:id". */
  function PrintPath(segs: seq<Segment>): string {
    "/" + Join(PrintAll(segs), '/')
  }

  /** Reading a printed pattern gives back its segments. */
  lemma PatternRoundTrip(segs: seq<Segment>)
    requires forall s | s in segs :: Printable(s) && '/' !in PrintSegment(s)
    ensures Segments(PrintPath(segs)) == PrintAll(segs)
    ensures ReadablePath(PrintPath(segs)) && ReadAll(Segments(PrintPath(segs))) == segs
  {
    var texts := PrintAll(segs);
    forall i | 0 <= i < |segs|
      ensures Readable(texts[i]) && ReadSegment(texts[i]) == segs[i] && '/' !in texts[i]
    {
      assert segs[i] in segs;
      SegmentRoundTrip(segs[i]);
    }
    PathCuts(texts);
    assert ReadAll(texts) == segs;
  }

  lemma PathCuts(texts: seq<string>)
    requires forall t | t in texts :: t != "" && '/' !in t
    ensures Segments("/" + Join(texts, '/')) == texts
  {
    SegmentsOfJoin(texts);
    SegmentsPiece("", Join(texts, '/'));
    assert "" + "/" + Join(texts, '/') == "/" + Join(texts, '/');
  }
}
