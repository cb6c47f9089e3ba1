/** The trie against the plain list of registrations it was built from. */
module RouteTable {
  import opened Patterns
  import opened Middlewares
  import opened Tries

  /** One registration: a pattern and what is to be done at its end. */
  datatype Entry = Entry(segs: seq<Segment>, action: Action)

  datatype Action =
    | Handle(handler: Option<Handler>, middlewares: seq<Middleware>, priority: int)
    | CatchAll(handler: Option<Handler>, middlewares: seq<Middleware>)
    | Files(baseDir: string)

  /** The entry of an `add_route` call; the path "/" makes the catch-all. */
  function RouteEntry(path: string, handler: Option<Handler>, middlewares: seq<Middleware>, priority: int): Entry
    requires ReadablePath(path)
  {
    if path == "/" then Entry([], CatchAll(handler, middlewares))
    else Entry(ReadAll(Segments(path)), Handle(handler, middlewares, priority))
  }

  /** The entry of an `add_static_route` call. */
  function FilesEntry(path: string, baseDir: string): Entry {
    Entry(Literals(Segments(path)), Files(baseDir))
  }

  /** What reading a path guarantees of an entry. */
  predicate Proper(e: Entry) {
    && (forall s | s in e.segs :: (s.kind != PARAMETER ==> !s.optional) && '/' !in s.part)
    && (e.action.CatchAll? ==> e.segs == [])
    && (e.action.Files? ==> forall s | s in e.segs :: s.kind == STATIC)
  }

  lemma EntriesProper(path: string, handler: Option<Handler>, middlewares: seq<Middleware>, priority: int,
      baseDir: string)
    ensures Proper(FilesEntry(path, baseDir))
    ensures ReadablePath(path) ==> Proper(RouteEntry(path, handler, middlewares, priority))
  {
    var segs := Segments(path);
    SegmentsClean(path);
    forall s | s in Literals(segs)
      ensures s.kind == STATIC && !s.optional && '/' !in s.part
    {
      var i :| 0 <= i < |segs| && Literals(segs)[i] == s;
      assert s == ReadStatic(segs[i]);
    }
    if ReadablePath(path) {
      forall s | s in ReadAll(segs)
        ensures (s.kind != PARAMETER ==> !s.optional) && '/' !in s.part
      {
        var i :| 0 <= i < |segs| && ReadAll(segs)[i] == s;
        assert s == ReadSegment(segs[i]);
      }
    }
  }

  type Table = seq<Entry>

  predicate ProperTable(table: Table) {
    forall e | e in table :: Proper(e)
  }

  function PathTo(e: Entry): Path {
    Parts(e.segs)
  }

  function Register(t: Trie, e: Entry): (g: Trie)
    requires WellFormed(t)
    ensures WellFormed(g)
  {
    match e.action
    case Handle(handler, middlewares, priority) =>
      PlacedWellFormed(t, e.segs, handler, middlewares, priority);
      Placed(t, e.segs, handler, middlewares, priority)
    case CatchAll(handler, middlewares) =>
      UpdateWellFormed(t, [], t[[]].(isCatchAll := true, handler := handler, middlewares := middlewares));
      t[[] := t[[]].(isCatchAll := true, handler := handler, middlewares := middlewares)]
    case Files(baseDir) =>
      ServedWellFormed(t, e.segs, baseDir);
      Served(t, e.segs, baseDir)
  }

  /** Registering is what `add_route` and `add_static_route` do to the trie. */
  lemma RegisterIsAdd(t: Trie, path: string, handler: Option<Handler>, middlewares: seq<Middleware>, priority: int,
      baseDir: string)
    requires WellFormed(t)
    ensures ReadablePath(path)
        ==> Register(t, RouteEntry(path, handler, middlewares, priority))
            == WithRoute(t, path, handler, middlewares, priority)
    ensures Register(t, FilesEntry(path, baseDir)) == WithStaticFiles(t, path, baseDir)
  {
  }

  /** The trie after all registrations in order. */
  function Built(table: Table): (t: Trie)
    ensures WellFormed(t)
  {
    if table == [] then
      assert forall p :: Filed(EMPTY_TRIE, p);
      EMPTY_TRIE
    else
      Register(Built(table[..|table| - 1]), table[|table| - 1])
  }

  // ---------- What one registration does to one node ----------

  /** `p` is a non-empty prefix of the registration's path. */
  ghost predicate OnPath(segs: seq<Segment>, p: Path) {
    0 < |p| <= |segs| && p == Parts(segs)[..|p|]
  }

  lemma {:induction false} GrowAt(t: Trie, segs: seq<Segment>, i: nat, p: Path)
    requires WellFormed(t) && i <= |segs|
    ensures var g := Grow(t, segs, i);
            if |p| <= i && OnPath(segs, p) then
              p in g && g[p] == Marked(if p in t then t[p] else FreshInfo(segs[|p| - 1].part, segs[|p| - 1].kind),
                  segs[|p| - 1])
            else
              (p in g <==> p in t) && (p in t ==> g[p] == t[p])
  {
    if i > 0 {
      GrowAt(t, segs, i - 1, p);
      var parts := Parts(segs);
      var c := parts[..i - 1] + [segs[i - 1].part];
      assert c == parts[..i];
      if p == c {
        assert |p| == i && OnPath(segs, p);
      } else {
        assert |p| == i ==> !OnPath(segs, p);
      }
    }
  }

  // ---------- The table's own account of a node ----------

  /** The handler registered last for `p`. */
  function HandlerAt(table: Table, p: Path): Option<Handler> {
    if table == [] then None
    else
      var e := table[|table| - 1];
      if !e.action.Files? && PathTo(e) == p then e.action.handler else HandlerAt(table[..|table| - 1], p)
  }

  /** The middlewares registered with that handler. */
  function MiddlewaresAt(table: Table, p: Path): seq<Middleware> {
    if table == [] then []
    else
      var e := table[|table| - 1];
      if !e.action.Files? && PathTo(e) == p then e.action.middlewares else MiddlewaresAt(table[..|table| - 1], p)
  }

  /** The directory that files are served from at `p`. */
  function BaseDirAt(table: Table, p: Path): string {
    if table == [] then ""
    else
      var e := table[|table| - 1];
      if e.action.Files? && PathTo(e) == p then e.action.baseDir else BaseDirAt(table[..|table| - 1], p)
  }

  function KindOf(segs: seq<Segment>): NodeType {
    if segs == [] then STATIC else segs[|segs| - 1].kind
  }

  /** The priority of `p`: an explicit one, else that of its kind; a regex keeps what it had. */
  function PriorityAt(table: Table, p: Path): int {
    if table == [] then 0
    else
      var e := table[|table| - 1];
      var before := PriorityAt(table[..|table| - 1], p);
      if e.action.Handle? && PathTo(e) == p then
        if e.action.priority != 0 then e.action.priority
        else match KindOf(e.segs)
             case STATIC => 3
             case PARAMETER => 2
             case WILDCARD => 1
             case REGEX => before
      else before
  }

  ghost predicate ServesFiles(table: Table, p: Path) {
    exists e | e in table :: e.action.Files? && PathTo(e) == p
  }

  ghost predicate HasCatchAll(table: Table) {
    exists e | e in table :: e.action.CatchAll?
  }

  /** If the first `i + 1` parts of two patterns agree, so do their segments at `i`. */
  ghost predicate NoClash(a: seq<Segment>, b: seq<Segment>, i: nat) {
    i < |a| && i < |b| && Parts(a)[..i + 1] == Parts(b)[..i + 1] ==> a[i] == b[i]
  }

  /** Under one parent, equal parts come from equal segments. */
  ghost predicate ClashFree(table: Table) {
    forall a, b, i: nat | a in table && b in table :: NoClash(a.segs, b.segs, i)
  }

  /** A node reads like a pattern segment. */
  ghost predicate Reads(n: Info, s: Segment) {
    && n.kind == s.kind && n.isOptional == s.optional
    && (s.kind == PARAMETER ==> n.defaultValue == s.defaultValue)
    && (s.kind == REGEX ==> n.regex == s.regex)
  }

  /** What a node holds beyond its segment agrees with the table. */
  ghost predicate Holds(n: Info, table: Table, p: Path) {
    && n.handler == HandlerAt(table, p) && n.priority == PriorityAt(table, p)
    && n.middlewares == MiddlewaresAt(table, p) && n.baseDir == BaseDirAt(table, p)
    && (n.isStaticFiles <==> ServesFiles(table, p))
    && (n.isCatchAll <==> p == [] && HasCatchAll(table))
  }

  ghost predicate Covers(table: Table, p: Path) {
    exists e | e in table :: OnPath(e.segs, p)
  }

  /** Node `p` is there, and is as it is, exactly because of the table. */
  ghost predicate DescribesAt(t: Trie, table: Table, p: Path) {
    && (p in t <==> p == [] || Covers(table, p))
    && (forall e | e in table && OnPath(e.segs, p) :: p in t && Reads(t[p], e.segs[|p| - 1]))
    && (p == [] && p in t ==> t[p].kind == STATIC && !t[p].isOptional)
    && (p in t ==> Holds(t[p], table, p))
  }

  ghost predicate Describes(t: Trie, table: Table) {
    forall p {:trigger DescribesAt(t, table, p)} :: DescribesAt(t, table, p)
  }

  // ---------- One registration, node by node ----------

  /** Node `p` after the registration's segments are walked and before its end is completed. */
  ghost function Walked(t: Trie, e: Entry, p: Path): Info
    requires p in t || OnPath(e.segs, p)
  {
    if OnPath(e.segs, p) then
      var s := e.segs[|p| - 1];
      Marked(if p in t then t[p] else FreshInfo(s.part, s.kind), s)
    else t[p]
  }

  /** Node `p` after a registration: as walked, and completed when the path ends there. */
  ghost function Registered(t: Trie, e: Entry, p: Path): Info
    requires p in t || OnPath(e.segs, p)
  {
    var n := Walked(t, e, p);
    if p != PathTo(e) then n
    else match e.action
      case Files(baseDir) => n.(isStaticFiles := true, baseDir := baseDir)
      case CatchAll(handler, middlewares) => n.(isCatchAll := true, handler := handler, middlewares := middlewares)
      case Handle(handler, middlewares, priority) => Finished(n, handler, middlewares, priority)
  }

  lemma RegisterAt(t: Trie, e: Entry, p: Path)
    requires WellFormed(t) && Proper(e)
    ensures var g := Register(t, e);
            (p in g <==> p in t || OnPath(e.segs, p)) && (p in g ==> g[p] == Registered(t, e, p))
  {
    if !e.action.CatchAll? {
      GrowAt(t, e.segs, |e.segs|, p);
      GrowEnds(t, e.segs);
    }
  }

  lemma TableGrows(table: Table, e: Entry)
    ensures forall a :: a in table + [e] <==> a in table || a == e
    ensures (table + [e])[..|table + [e]| - 1] == table
  {
  }

  lemma MarkedReads(n: Info, s: Segment)
    requires s.kind != PARAMETER ==> !s.optional
    requires Reads(n, s) || n == FreshInfo(s.part, s.kind)
    ensures Reads(Marked(n, s), s)
  {
  }

  /** The node a registration walks over reads like the registration's segment. */
  lemma WalkedReads(t: Trie, table: Table, e: Entry, p: Path)
    requires ProperTable(table + [e]) && ClashFree(table + [e])
    requires DescribesAt(t, table, p) && OnPath(e.segs, p)
    ensures Reads(Walked(t, e, p), e.segs[|p| - 1])
  {
    var s := e.segs[|p| - 1];
    TableGrows(table, e);
    assert Proper(e) && s in e.segs;
    if p in t {
      var a :| a in table && OnPath(a.segs, p);
      assert NoClash(a.segs, e.segs, |p| - 1);
      MarkedReads(t[p], s);
    } else {
      MarkedReads(FreshInfo(s.part, s.kind), s);
    }
  }

  lemma RegisteredReads(t: Trie, table: Table, e: Entry, p: Path, a: Entry)
    requires ProperTable(table + [e]) && ClashFree(table + [e])
    requires WellFormed(t) && DescribesAt(t, table, p)
    requires a in table + [e] && OnPath(a.segs, p)
    ensures p in Register(t, e) && Reads(Register(t, e)[p], a.segs[|p| - 1])
  {
    TableGrows(table, e);
    assert Proper(e);
    RegisterAt(t, e, p);
    if OnPath(e.segs, p) {
      WalkedReads(t, table, e, p);
      assert NoClash(a.segs, e.segs, |p| - 1);
    } else {
      assert a in table;
    }
  }

  lemma {:induction false} AbsentHoldsNothing(table: Table, p: Path)
    requires p != [] && !Covers(table, p)
    ensures HandlerAt(table, p) == None && PriorityAt(table, p) == 0 && !ServesFiles(table, p)
    ensures MiddlewaresAt(table, p) == [] && BaseDirAt(table, p) == ""
  {
    forall a | a in table
      ensures PathTo(a) != p
    {
      assert !OnPath(a.segs, p);
    }
    if table != [] {
      var init := table[..|table| - 1];
      assert forall a | a in init :: a in table;
      AbsentHoldsNothing(init, p);
    }
  }

  lemma FlagsGrow(table: Table, e: Entry, p: Path)
    ensures ServesFiles(table + [e], p) <==> ServesFiles(table, p) || (e.action.Files? && PathTo(e) == p)
    ensures HasCatchAll(table + [e]) <==> HasCatchAll(table) || e.action.CatchAll?
  {
    TableGrows(table, e);
    var all := table + [e];
    assert e in all;
    if ServesFiles(table, p) {
      var a :| a in table && a.action.Files? && PathTo(a) == p;
      assert a in all;
    }
    if HasCatchAll(table) {
      var a :| a in table && a.action.CatchAll?;
      assert a in all;
    }
  }

  /** What the walk finds or leaves at `p`, before completion, agrees with the table so far. */
  lemma WalkedHolds(t: Trie, table: Table, e: Entry, p: Path)
    requires ProperTable(table + [e]) && ClashFree(table + [e])
    requires DescribesAt(t, table, p)
    requires p in t || OnPath(e.segs, p)
    ensures Holds(Walked(t, e, p), table, p)
  {
    if p !in t {
      AbsentHoldsNothing(table, p);
    }
  }

  lemma WalkedKind(t: Trie, table: Table, e: Entry, p: Path)
    requires ProperTable(table + [e]) && ClashFree(table + [e])
    requires DescribesAt(t, table, p)
    requires p == PathTo(e) && (p in t || OnPath(e.segs, p))
    ensures Walked(t, e, p).kind == KindOf(e.segs)
  {
    if p != [] {
      WalkedReads(t, table, e, p);
    }
  }

  /** Completing the end of a registration is what the table records of it. */
  lemma CompletedHolds(t: Trie, table: Table, e: Entry, p: Path)
    requires p in t || OnPath(e.segs, p)
    requires Proper(e) && Holds(Walked(t, e, p), table, p)
    requires p == PathTo(e) ==> Walked(t, e, p).kind == KindOf(e.segs)
    ensures Holds(Registered(t, e, p), table + [e], p)
  {
    TableGrows(table, e);
    FlagsGrow(table, e, p);
  }

  lemma RegisteredHolds(t: Trie, table: Table, e: Entry, p: Path)
    requires ProperTable(table + [e]) && ClashFree(table + [e])
    requires WellFormed(t) && DescribesAt(t, table, p)
    requires p in Register(t, e)
    ensures Holds(Register(t, e)[p], table + [e], p)
  {
    TableGrows(table, e);
    assert Proper(e);
    RegisterAt(t, e, p);
    WalkedHolds(t, table, e, p);
    if p == PathTo(e) {
      WalkedKind(t, table, e, p);
    }
    CompletedHolds(t, table, e, p);
  }

  lemma RegisterDescribesAt(t: Trie, table: Table, e: Entry, p: Path)
    requires ProperTable(table + [e]) && ClashFree(table + [e])
    requires WellFormed(t) && DescribesAt(t, table, p)
    ensures DescribesAt(Register(t, e), table + [e], p)
  {
    var all, g := table + [e], Register(t, e);
    TableGrows(table, e);
    assert Proper(e) && e in all;
    RegisterAt(t, e, p);
    forall a | a in all && OnPath(a.segs, p)
      ensures p in g && Reads(g[p], a.segs[|p| - 1])
    {
      RegisteredReads(t, table, e, p, a);
    }
    if p in g {
      RegisteredHolds(t, table, e, p);
    }
    if Covers(table, p) {
      var a :| a in table && OnPath(a.segs, p);
      assert a in all;
    }
  }

  /** The built trie says neither more nor less than the table. */
  lemma {:induction false} BuiltDescribesAt(table: Table, p: Path)
    requires ProperTable(table) && ClashFree(table)
    ensures DescribesAt(Built(table), table, p)
  {
    if table == [] {
    } else {
      var init, e := table[..|table| - 1], table[|table| - 1];
      assert table == init + [e];
      TableGrows(init, e);
      assert ClashFree(init) by {
        forall a, b, i: nat | a in init && b in init
          ensures NoClash(a.segs, b.segs, i)
        {
          assert a in table && b in table;
        }
      }
      BuiltDescribesAt(init, p);
      RegisterDescribesAt(Built(init), init, e, p);
    }
  }

  lemma BuiltDescribes(table: Table)
    requires ProperTable(table) && ClashFree(table)
    ensures Describes(Built(table), table)
  {
    forall p
      ensures DescribesAt(Built(table), table, p)
    {
      BuiltDescribesAt(table, p);
    }
  }
}
