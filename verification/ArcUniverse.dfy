/** The branch-arc universe of a Python source file: for every `if` and loop header, the lines that can be
    executed next.  Statements are reduced to what decides control flow, one statement per line. */
module ArcUniverse {
  type Line = x: int | x > 0 witness 1

  datatype Stmt =
    | Simple(line: Line)
    | Break(line: Line)
    | Continue(line: Line)
    | Return(line: Line)
    | If(line: Line, body: seq<Stmt>, orelse: seq<Stmt>)
    | Loop(line: Line, body: seq<Stmt>, orelse: seq<Stmt>)
    | Definition(line: Line, decorators: seq<Line>, body: seq<Stmt>)
  {
    predicate Branches() {
      If? || Loop?
    }
  }

  function FirstLine(ss: seq<Stmt>, fallback: int): int {
    if ss == [] then fallback else ss[0].line
  }

  function Least(a: Line, rest: seq<Line>): Line
    decreases |rest|
  {
    if rest == [] then a else Least(if rest[0] < a then rest[0] else a, rest[1..])
  }

  function DefinitionFirstLine(s: Stmt): int
    requires s.Definition?
  {
    Least(s.line, s.decorators)
  }

  /** The line of a statement that is executed first: a definition starts with its decorators. */
  function EntryLine(s: Stmt): Line {
    if s.Definition? then DefinitionFirstLine(s) else s.line
  }

  // ---- Where each statement stands ----

  /** What comes next: the line that the walk names for it, and the line that is executed first. */
  datatype Mark = Mark(named: int, entered: int) {
    predicate Plain() {
      named == entered
    }
  }

  function Same(line: int): Mark {
    Mark(line, line)
  }

  function First(ss: seq<Stmt>, fallback: Mark): Mark {
    if ss == [] then fallback else Mark(ss[0].line, EntryLine(ss[0]))
  }

  /** A statement together with what follows it when it completes. */
  datatype Site = Site(stmt: Stmt, next: Mark) {
    function Ways(): set<Mark> {
      match stmt
      case If(_, body, orelse) => {First(body, next), First(orelse, next)}
      case Loop(line, body, orelse) => {First(body, Same(line)), First(orelse, next)}
      case _ => {}
    }

    function Targets(): set<int> {
      set way | way in Ways() :: way.named
    }

    function Entries(): set<int> {
      set way | way in Ways() :: way.entered
    }
  }

  /** The sites of a block that is followed by `cont`, nested blocks and definitions included. */
  function Sites(ss: seq<Stmt>, cont: Mark): set<Site> {
    if ss == [] then {}
    else
      var site := Site(ss[0], First(ss[1..], cont));
      {site} + InnerSites(ss[0], site.next) + Sites(ss[1..], cont)
  }

  /** What follows the body of a definition: the exit of its code object. */
  function ExitMark(d: Stmt): Mark
    requires d.Definition?
  {
    Same(-DefinitionFirstLine(d))
  }

  function InnerSites(s: Stmt, next: Mark): set<Site> {
    match s
    case If(_, body, orelse) => Sites(body, next) + Sites(orelse, next)
    case Loop(line, body, orelse) => Sites(body, Same(line)) + Sites(orelse, next)
    case Definition(_, _, body) => Sites(body, ExitMark(s))
    case _ => {}
  }

  /** A branch stands on this line. */
  ghost predicate BranchAt(sites: set<Site>, line: int) {
    exists site :: site in sites && site.stmt.Branches() && site.stmt.line == line
  }

  /** The targets that the branches on one line have together. */
  ghost function TargetsAt(sites: set<Site>, line: int): set<int> {
    set site, t | site in sites && site.stmt.line == line && t in site.Targets() :: t
  }

  function Get(raw: map<int, set<int>>, line: int): set<int> {
    if line in raw then raw[line] else {}
  }

  /** `after` is `before` with the arcs of these sites added. */
  ghost predicate Adds(before: map<int, set<int>>, after: map<int, set<int>>, sites: set<Site>) {
    forall line: int ::
      && (line in after <==> line in before || BranchAt(sites, line))
      && Get(after, line) == Get(before, line) + TargetsAt(sites, line)
  }

  lemma AddsNothing(raw: map<int, set<int>>)
    ensures Adds(raw, raw, {})
  {
  }

  lemma AddsInTurn(a: map<int, set<int>>, b: map<int, set<int>>, c: map<int, set<int>>, first: set<Site>,
                   second: set<Site>)
    requires Adds(a, b, first) && Adds(b, c, second)
    ensures Adds(a, c, first + second)
  {
    forall line: int
      ensures line in c <==> line in a || BranchAt(first + second, line)
      ensures Get(c, line) == Get(a, line) + TargetsAt(first + second, line)
    {
      assert TargetsAt(first + second, line) == TargetsAt(first, line) + TargetsAt(second, line);
      assert BranchAt(first, line) ==> BranchAt(first + second, line);
      assert BranchAt(second, line) ==> BranchAt(first + second, line);
    }
  }

  lemma AddsThree(a: map<int, set<int>>, b: map<int, set<int>>, c: map<int, set<int>>, d: map<int, set<int>>,
                  first: set<Site>, second: set<Site>, third: set<Site>)
    requires Adds(a, b, first) && Adds(b, c, second) && Adds(c, d, third)
    ensures Adds(a, d, first + (second + third))
  {
    AddsInTurn(b, c, d, second, third);
    AddsInTurn(a, b, d, first, second + third);
  }

  lemma AddsOne(raw: map<int, set<int>>, site: Site)
    ensures site.stmt.Branches() ==>
              Adds(raw, raw[site.stmt.line := Get(raw, site.stmt.line) + site.Targets()], {site})
    ensures !site.stmt.Branches() ==> Adds(raw, raw, {site})
  {
    forall line: int
      ensures TargetsAt({site}, line) == if line == site.stmt.line then site.Targets() else {}
      ensures BranchAt({site}, line) <==> site.stmt.Branches() && site.stmt.line == line
    {
      assert site in {site};
    }
  }

  /** The walk that collects the arcs. */
  class ArcWalker {
    var raw: map<int, set<int>>

    constructor ()
      ensures raw == map[]
    {
      raw := map[];
    }

    method Update(line: int, targets: set<int>)
      modifies this
      ensures raw == old(raw)[line := Get(old(raw), line) + targets]
    {
      raw := raw[line := (if line in raw then raw[line] else {}) + targets];
    }

    method WalkBlock(ss: seq<Stmt>, cont: int, ghost mark: Mark)
      requires mark.named == cont
      modifies this
      ensures Adds(old(raw), raw, Sites(ss, mark))
      decreases ss
    {
      ghost var walked: set<Site> := {};
      AddsNothing(raw);
      for i := 0 to |ss|
        invariant walked + Sites(ss[i..], mark) == Sites(ss, mark)
        invariant Adds(old(raw), raw, walked)
      {
        var next := if i + 1 < |ss| then ss[i + 1].line else cont;
        assert ss[i..][0] == ss[i] && ss[i..][1..] == ss[i + 1..];
        ghost var before, after := raw, First(ss[i + 1..], mark);
        WalkStatement(ss[i], next, after);
        ghost var found := {Site(ss[i], after)} + InnerSites(ss[i], after);
        AddsInTurn(old(raw), before, raw, walked, found);
        walked := walked + found;
      }
    }

    method WalkStatement(s: Stmt, next: int, ghost mark: Mark)
      requires mark.named == next
      modifies this
      ensures Adds(old(raw), raw, {Site(s, mark)} + InnerSites(s, mark))
      decreases s
    {
      ghost var start := raw;
      AddsOne(raw, Site(s, mark));
      match s {
        case If(line, body, orelse) =>
          Update(line, {FirstLine(body, next), FirstLine(orelse, next)});
          assert {FirstLine(body, next), FirstLine(orelse, next)} == Site(s, mark).Targets();
          ghost var one := raw;
          WalkBlock(body, next, mark);
          ghost var two := raw;
          WalkBlock(orelse, next, mark);
          AddsThree(start, one, two, raw, {Site(s, mark)}, Sites(body, mark), Sites(orelse, mark));
        case Loop(line, body, orelse) =>
          Update(line, {FirstLine(body, line), FirstLine(orelse, next)});
          assert {FirstLine(body, line), FirstLine(orelse, next)} == Site(s, mark).Targets();
          ghost var one := raw;
          WalkBlock(body, line, Same(line));
          ghost var two := raw;
          WalkBlock(orelse, next, mark);
          AddsThree(start, one, two, raw, {Site(s, mark)}, Sites(body, Same(line)), Sites(orelse, mark));
        case Definition(_, _, body) =>
          WalkBlock(body, -DefinitionFirstLine(s), ExitMark(s));
          AddsInTurn(start, start, raw, {Site(s, mark)}, Sites(body, ExitMark(s)));
        case _ =>
          assert {Site(s, mark)} + InnerSites(s, mark) == {Site(s, mark)};
      }
    }
  }

  /** All sites of a file, whose exit is line -1. */
  function FileSites(tree: seq<Stmt>): set<Site> {
    Sites(tree, Same(-1))
  }

  /** `_source_branch_arc_universe`, after parsing. */
  method SourceBranchArcUniverse(tree: seq<Stmt>) returns (raw: map<int, set<int>>)
    ensures Adds(map[], raw, FileSites(tree))
  {
    var walker := new ArcWalker();
    walker.WalkBlock(tree, -1, Same(-1));
    return walker.raw;
  }
}
