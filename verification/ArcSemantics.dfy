/** The line-by-line execution of the statement language, and the proof that the arc universe is exact at every
    branch that an execution comes to. */
module ArcSemantics {
  import opened ArcUniverse

  // ---- Execution ----

  /** What is left to execute: a non-empty block and what follows it, the next turn of a loop, or the exit of
      the code object, which has a line number of its own. */
  datatype Rest =
    | Exit(line: int)
    | Block(stmts: seq<Stmt>, after: Rest)
    | Turn(loop: Stmt, after: Rest)
  {
    /** What comes next. */
    function Next(): Mark {
      match this
      case Exit(line) => Same(line)
      case Block(stmts, after) => First(stmts, after.Next())
      case Turn(loop, _) => Same(loop.line)
    }

    /** The line that is executed next. */
    function Line(): int {
      Next().entered
    }

    /** The statement that is executed next. */
    predicate Stands(s: Stmt) {
      match this
      case Exit(_) => false
      case Block(stmts, _) => stmts != [] && stmts[0] == s
      case Turn(loop, _) => loop == s
    }
  }

  function Then(ss: seq<Stmt>, after: Rest): Rest {
    if ss == [] then after else Block(ss, after)
  }

  /** Where `return` goes. */
  function ExitOf(k: Rest): Rest {
    match k
    case Exit(_) => k
    case Block(_, after) => ExitOf(after)
    case Turn(_, after) => ExitOf(after)
  }

  /** Where `break` goes: past the innermost loop and its `else` part. */
  function BreakOf(k: Rest): Rest {
    match k
    case Exit(_) => k
    case Block(_, after) => BreakOf(after)
    case Turn(_, after) => after
  }

  /** Where `continue` goes: to the header of the innermost loop. */
  function ContinueOf(k: Rest): Rest {
    match k
    case Exit(_) => k
    case Block(_, after) => ContinueOf(after)
    case Turn(_, _) => k
  }

  /** Executing `s`, followed by `next`; conditions and iterators may go either way. */
  function Execute(s: Stmt, next: Rest): set<Rest> {
    match s
    case Simple(_) => {next}
    case Definition(_, _, _) => {next}
    case Break(_) => {BreakOf(next)}
    case Continue(_) => {ContinueOf(next)}
    case Return(_) => {ExitOf(next)}
    case If(_, body, orelse) => {Then(body, next), Then(orelse, next)}
    case Loop(_, body, orelse) => {Then(body, Turn(s, next)), Then(orelse, next)}
  }

  function Steps(k: Rest): set<Rest> {
    match k
    case Exit(_) => {}
    case Block(stmts, after) => if stmts == [] then {} else Execute(stmts[0], Then(stmts[1..], after))
    case Turn(loop, after) => Execute(loop, after)
  }

  ghost predicate IsRun(run: seq<Rest>, from: Rest, to: Rest) {
    && run != [] && run[0] == from && run[|run| - 1] == to
    && forall i :: 0 <= i < |run| - 1 ==> run[i + 1] in Steps(run[i])
  }

  ghost predicate Reaches(from: Rest, to: Rest) {
    exists run :: IsRun(run, from, to)
  }

  // ---- Code objects ----

  /** The body of a definition as a code object of its own, whose exit is the negated first line. */
  function BodyOf(d: Stmt): Rest
    requires d.Definition?
  {
    Then(d.body, Exit(-DefinitionFirstLine(d)))
  }

  /** An execution of one code object comes to a definition, whose body may then be executed as another. */
  ghost predicate Defines(from: Rest, to: Rest) {
    exists k, d :: Reaches(from, k) && StandsOnDefinition(k, d) && to == BodyOf(d)
  }

  ghost predicate StandsOnDefinition(k: Rest, d: Stmt) {
    k.Stands(d) && d.Definition?
  }

  /** Code objects of a file, the module body first, each defined by an execution of the one before. */
  ghost predicate IsChain(chain: seq<Rest>, tree: seq<Stmt>, start: Rest) {
    && chain != [] && chain[0] == Then(tree, Exit(-1)) && chain[|chain| - 1] == start
    && forall i :: 0 <= i < |chain| - 1 ==> Defines(chain[i], chain[i + 1])
  }

  /** The start of a code object that can be executed: the module body, whose exit is line -1, or the body of a
      definition that an execution of such a code object comes to. */
  ghost predicate Startable(tree: seq<Stmt>, start: Rest) {
    exists chain :: IsChain(chain, tree, start)
  }

  /** Some execution of the file goes from `line`, where a branch stands, to `target` as the next line. */
  ghost predicate Takes(tree: seq<Stmt>, line: int, target: int) {
    exists start, k, k', s ::
      Startable(tree, start) && Reaches(start, k) && Branches(k, s, line) && k' in Steps(k) && k'.Line() == target
  }

  ghost predicate Branches(k: Rest, s: Stmt, line: int) {
    k.Stands(s) && s.Branches() && s.line == line
  }

  // ---- One statement per line ----

  function OwnLines(s: Stmt): set<Line> {
    {s.line} + if s.Definition? then (set d | d in s.decorators) else {}
  }

  function Lines(ss: seq<Stmt>): set<Line> {
    if ss == [] then {} else OwnLines(ss[0]) + InnerLines(ss[0]) + Lines(ss[1..])
  }

  function InnerLines(s: Stmt): set<Line> {
    match s
    case If(_, body, orelse) => Lines(body) + Lines(orelse)
    case Loop(_, body, orelse) => Lines(body) + Lines(orelse)
    case Definition(_, _, body) => Lines(body)
    case _ => {}
  }

  predicate Distinct(ss: seq<Stmt>) {
    ss == [] ||
    (&& DistinctInside(ss[0]) && Distinct(ss[1..])
     && (OwnLines(ss[0]) + InnerLines(ss[0])) !! Lines(ss[1..]))
  }

  predicate DistinctInside(s: Stmt) {
    && OwnLines(s) !! InnerLines(s)
    && match s
       case If(_, body, orelse) => Distinct(body) && Distinct(orelse) && Lines(body) !! Lines(orelse)
       case Loop(_, body, orelse) => Distinct(body) && Distinct(orelse) && Lines(body) !! Lines(orelse)
       case Definition(_, _, body) => Distinct(body)
       case _ => true
  }

  lemma {:induction false} SiteLines(ss: seq<Stmt>, cont: Mark, site: Site)
    requires site in Sites(ss, cont)
    ensures site.stmt.line in Lines(ss)
    decreases ss
  {
    if site == Site(ss[0], First(ss[1..], cont)) {
    } else if site in InnerSites(ss[0], First(ss[1..], cont)) {
      InnerSiteLines(ss[0], First(ss[1..], cont), site);
    } else {
      SiteLines(ss[1..], cont, site);
    }
  }

  lemma {:induction false} InnerSiteLines(s: Stmt, next: Mark, site: Site)
    requires site in InnerSites(s, next)
    ensures site.stmt.line in InnerLines(s)
    decreases s
  {
    match s
    case If(_, body, orelse) =>
      if site in Sites(body, next) {
        SiteLines(body, next, site);
      } else {
        SiteLines(orelse, next, site);
      }
    case Loop(line, body, orelse) =>
      if site in Sites(body, Same(line)) {
        SiteLines(body, Same(line), site);
      } else {
        SiteLines(orelse, next, site);
      }
    case Definition(_, _, body) => SiteLines(body, ExitMark(s), site);
    case _ =>
  }

  /** With one statement per line, a line has one site. */
  lemma {:induction false} OneSite(ss: seq<Stmt>, cont: Mark, a: Site, b: Site)
    requires Distinct(ss) && a in Sites(ss, cont) && b in Sites(ss, cont) && a.stmt.line == b.stmt.line
    ensures a == b
    decreases ss
  {
    var next := First(ss[1..], cont);
    var head := Site(ss[0], next);
    Where(ss, cont, a);
    Where(ss, cont, b);
    if a in InnerSites(ss[0], next) && b in InnerSites(ss[0], next) {
      OneInnerSite(ss[0], next, a, b);
    } else if a in Sites(ss[1..], cont) && b in Sites(ss[1..], cont) {
      OneSite(ss[1..], cont, a, b);
    }
  }

  /** The three places a site of a block can be, told apart by its line. */
  lemma Where(ss: seq<Stmt>, cont: Mark, site: Site)
    requires ss != [] && Distinct(ss) && site in Sites(ss, cont)
    ensures var next := First(ss[1..], cont);
      var head, inner, later := site == Site(ss[0], next), site in InnerSites(ss[0], next),
          site in Sites(ss[1..], cont);
      && (head || inner || later)
      && (head ==> site.stmt.line == ss[0].line)
      && (inner ==> site.stmt.line in InnerLines(ss[0]) && site.stmt.line != ss[0].line)
      && (later ==> site.stmt.line in Lines(ss[1..]))
  {
    var next := First(ss[1..], cont);
    if site in InnerSites(ss[0], next) {
      InnerSiteLines(ss[0], next, site);
    }
    if site in Sites(ss[1..], cont) {
      SiteLines(ss[1..], cont, site);
    }
  }

  lemma {:induction false} OneInnerSite(s: Stmt, next: Mark, a: Site, b: Site)
    requires DistinctInside(s) && a in InnerSites(s, next) && b in InnerSites(s, next) && a.stmt.line == b.stmt.line
    ensures a == b
    decreases s
  {
    match s
    case If(_, body, orelse) =>
      SameSide(body, next, orelse, next, a, b);
      if a in Sites(body, next) && b in Sites(body, next) {
        OneSite(body, next, a, b);
      } else {
        OneSite(orelse, next, a, b);
      }
    case Loop(line, body, orelse) =>
      SameSide(body, Same(line), orelse, next, a, b);
      if a in Sites(body, Same(line)) && b in Sites(body, Same(line)) {
        OneSite(body, Same(line), a, b);
      } else {
        OneSite(orelse, next, a, b);
      }
    case Definition(_, _, body) => OneSite(body, ExitMark(s), a, b);
    case _ =>
  }

  lemma SameSide(body: seq<Stmt>, bodyCont: Mark, orelse: seq<Stmt>, cont: Mark, a: Site, b: Site)
    requires Lines(body) !! Lines(orelse) && a.stmt.line == b.stmt.line
    requires a in Sites(body, bodyCont) + Sites(orelse, cont) && b in Sites(body, bodyCont) + Sites(orelse, cont)
    ensures (a in Sites(body, bodyCont) && b in Sites(body, bodyCont))
            || (a in Sites(orelse, cont) && b in Sites(orelse, cont))
  {
    if a in Sites(body, bodyCont) {
      SiteLines(body, bodyCont, a);
    } else {
      SiteLines(orelse, cont, a);
    }
    if b in Sites(body, bodyCont) {
      SiteLines(body, bodyCont, b);
    } else {
      SiteLines(orelse, cont, b);
    }
  }

  // ---- Executions stay on the sites ----

  /** Every statement that is left to execute is a site of the file, followed by the line that really comes
      next. */
  ghost predicate OnSites(k: Rest, sites: set<Site>) {
    match k
    case Exit(_) => true
    case Block(stmts, after) => stmts != [] && Sites(stmts, after.Next()) <= sites && OnSites(after, sites)
    case Turn(loop, after) =>
      loop.Loop? && Site(loop, after.Next()) in sites && InnerSites(loop, after.Next()) <= sites
        && OnSites(after, sites)
  }

  lemma ThenOnSites(ss: seq<Stmt>, after: Rest, sites: set<Site>)
    requires Sites(ss, after.Next()) <= sites && OnSites(after, sites)
    ensures OnSites(Then(ss, after), sites) && Then(ss, after).Next() == First(ss, after.Next())
  {
  }

  lemma {:induction false} JumpsStayOnSites(k: Rest, sites: set<Site>)
    requires OnSites(k, sites)
    ensures OnSites(ExitOf(k), sites) && OnSites(BreakOf(k), sites) && OnSites(ContinueOf(k), sites)
  {
    match k
    case Exit(_) =>
    case Block(_, after) => JumpsStayOnSites(after, sites);
    case Turn(_, after) => JumpsStayOnSites(after, sites);
  }

  lemma ExecuteStaysOnSites(s: Stmt, next: Rest, sites: set<Site>, k: Rest)
    requires Site(s, next.Next()) in sites && InnerSites(s, next.Next()) <= sites && OnSites(next, sites)
    requires k in Execute(s, next)
    ensures OnSites(k, sites)
    ensures s.Branches() ==> k.Next() in Site(s, next.Next()).Ways()
  {
    JumpsStayOnSites(next, sites);
    match s
    case If(_, body, orelse) =>
      ThenOnSites(body, next, sites);
      ThenOnSites(orelse, next, sites);
    case Loop(_, body, orelse) =>
      ThenOnSites(body, Turn(s, next), sites);
      ThenOnSites(orelse, next, sites);
    case _ =>
  }

  /** The statement executed next is a site of the file. */
  lemma StandsOnSite(k: Rest, sites: set<Site>) returns (s: Stmt, next: Rest)
    requires OnSites(k, sites) && !k.Exit?
    ensures k.Stands(s) && Steps(k) == Execute(s, next)
    ensures Site(s, next.Next()) in sites && InnerSites(s, next.Next()) <= sites && OnSites(next, sites)
  {
    match k
    case Block(stmts, after) =>
      s, next := stmts[0], Then(stmts[1..], after);
      ThenOnSites(stmts[1..], after, sites);
    case Turn(loop, after) =>
      s, next := loop, after;
  }

  lemma {:induction false} RunStaysOnSites(run: seq<Rest>, from: Rest, to: Rest, sites: set<Site>)
    requires IsRun(run, from, to) && OnSites(from, sites)
    ensures OnSites(to, sites)
    decreases |run|
  {
    if |run| > 1 {
      var before := run[|run| - 2];
      var shorter := run[..|run| - 1];
      forall i | 0 <= i < |shorter| - 1
        ensures shorter[i + 1] in Steps(shorter[i])
      {
        assert run[i + 1] in Steps(run[i]);
      }
      RunStaysOnSites(shorter, from, before, sites);
      assert run[|run| - 2 + 1] in Steps(before);
      var s, next := StandsOnSite(before, sites);
      ExecuteStaysOnSites(s, next, sites, to);
    }
  }

  /** A property of code objects that the module body has, and that passes to the bodies of definitions, holds of
      every code object of the chain. */
  lemma {:induction false} ChainKeeps(chain: seq<Rest>, tree: seq<Stmt>, start: Rest, holds: Rest -> bool)
    requires IsChain(chain, tree, start) && holds(Then(tree, Exit(-1)))
    requires forall from, to :: holds(from) && Defines(from, to) ==> holds(to)
    ensures holds(start)
    decreases |chain|
  {
    if |chain| > 1 {
      var shorter, from := chain[..|chain| - 1], chain[|chain| - 2];
      forall i | 0 <= i < |shorter| - 1
        ensures Defines(shorter[i], shorter[i + 1])
      {
        assert Defines(chain[i], chain[i + 1]);
      }
      ChainKeeps(shorter, tree, from, holds);
      assert Defines(chain[|chain| - 2], chain[|chain| - 2 + 1]);
    }
  }

  lemma DefinedOnSites(from: Rest, to: Rest, sites: set<Site>)
    requires OnSites(from, sites) && Defines(from, to)
    ensures OnSites(to, sites)
  {
    var k, d :| Reaches(from, k) && StandsOnDefinition(k, d) && to == BodyOf(d);
    var run :| IsRun(run, from, k);
    RunStaysOnSites(run, from, k, sites);
    var s, next := StandsOnSite(k, sites);
    ThenOnSites(d.body, Exit(-DefinitionFirstLine(d)), sites);
  }

  lemma StartsOnSites(tree: seq<Stmt>, start: Rest)
    requires Startable(tree, start)
    ensures OnSites(start, FileSites(tree))
  {
    var sites := FileSites(tree);
    var chain :| IsChain(chain, tree, start);
    ThenOnSites(tree, Exit(-1), sites);
    forall from, to | OnSites(from, sites) && Defines(from, to)
      ensures OnSites(to, sites)
    {
      DefinedOnSites(from, to, sites);
    }
    ChainKeeps(chain, tree, start, k => OnSites(k, sites));
  }

  // ---- Longer runs ----

  lemma ReachesItself(k: Rest)
    ensures Reaches(k, k)
  {
    assert IsRun([k], k, k);
  }

  lemma ReachesNext(from: Rest, k: Rest, to: Rest)
    requires Reaches(from, k) && to in Steps(k)
    ensures Reaches(from, to)
  {
    var run :| IsRun(run, from, k);
    var longer := run + [to];
    forall i | 0 <= i < |longer| - 1
      ensures longer[i + 1] in Steps(longer[i])
    {
      if i < |run| - 1 {
        assert run[i + 1] in Steps(run[i]);
      }
    }
    assert IsRun(longer, from, to);
  }

  lemma ModuleIsStartable(tree: seq<Stmt>)
    ensures Startable(tree, Then(tree, Exit(-1)))
  {
    assert IsChain([Then(tree, Exit(-1))], tree, Then(tree, Exit(-1)));
  }

  lemma DefinedIsStartable(tree: seq<Stmt>, from: Rest, to: Rest)
    requires Startable(tree, from) && Defines(from, to)
    ensures Startable(tree, to)
  {
    var chain :| IsChain(chain, tree, from);
    var longer := chain + [to];
    forall i | 0 <= i < |longer| - 1
      ensures Defines(longer[i], longer[i + 1])
    {
      if i < |chain| - 1 {
        assert Defines(chain[i], chain[i + 1]);
      }
    }
    assert IsChain(longer, tree, to);
  }

  // ---- The universe is exact ----

  /** The branch that an execution comes to is a site of the file, and its steps are the ways of that site. */
  lemma StandsOnItsSite(tree: seq<Stmt>, start: Rest, k: Rest, s: Stmt) returns (site: Site)
    requires Startable(tree, start) && Reaches(start, k) && k.Stands(s) && s.Branches()
    ensures site in FileSites(tree) && site.stmt == s
    ensures forall way :: way in site.Ways() <==> exists k' :: k' in Steps(k) && k'.Next() == way
  {
    var sites := FileSites(tree);
    StartsOnSites(tree, start);
    var run :| IsRun(run, start, k);
    RunStaysOnSites(run, start, k, sites);
    var t, next := StandsOnSite(k, sites);
    site := Site(s, next.Next());
    forall way | way in site.Ways()
      ensures exists k' :: k' in Steps(k) && k'.Next() == way
    {
      WayIsTaken(s, next, way);
    }
    forall k' | k' in Steps(k)
      ensures k'.Next() in site.Ways()
    {
      ExecuteStaysOnSites(s, next, sites, k');
    }
  }

  lemma WayIsTaken(s: Stmt, next: Rest, way: Mark)
    requires s.Branches() && way in Site(s, next.Next()).Ways()
    ensures exists k :: k in Execute(s, next) && k.Next() == way
  {
    match s
    case If(_, body, orelse) =>
      assert Then(body, next) in Execute(s, next) && Then(orelse, next) in Execute(s, next);
      assert Then(body, next).Next() == First(body, next.Next())
        && Then(orelse, next).Next() == First(orelse, next.Next());
    case Loop(line, body, orelse) =>
      var again := Turn(s, next);
      assert Then(body, again) in Execute(s, next) && Then(orelse, next) in Execute(s, next);
      assert Then(body, again).Next() == First(body, Same(line))
        && Then(orelse, next).Next() == First(orelse, next.Next());
  }

  lemma OnlySite(tree: seq<Stmt>, site: Site, other: Site)
    requires Distinct(tree) && site in FileSites(tree) && other in FileSites(tree) && other.stmt.line == site.stmt.line
    ensures other == site
  {
    OneSite(tree, Same(-1), other, site);
  }

  lemma TargetsOfOne(tree: seq<Stmt>, site: Site)
    requires Distinct(tree) && site in FileSites(tree)
    ensures TargetsAt(FileSites(tree), site.stmt.line) == site.Targets()
  {
    forall other | other in FileSites(tree) && other.stmt.line == site.stmt.line
      ensures other == site
    {
      OnlySite(tree, site, other);
    }
  }

  /** At every branch that an execution can come to, jumps included, the universe holds exactly the lines of the
      statements that execution can go to next. */
  lemma UniverseIsExact(tree: seq<Stmt>, raw: map<int, set<int>>, start: Rest, k: Rest, s: Stmt)
    requires Distinct(tree) && Adds(map[], raw, FileSites(tree))
    requires Startable(tree, start) && Reaches(start, k) && k.Stands(s) && s.Branches()
    ensures s.line in raw
    ensures forall target :: target in raw[s.line] <==> exists k' :: k' in Steps(k) && k'.Next().named == target
  {
    var site := StandsOnItsSite(tree, start, k, s);
    TargetsOfOne(tree, site);
    assert BranchAt(FileSites(tree), s.line);
    forall k' | k' in Steps(k)
      ensures k'.Next().named in raw[s.line]
    {
      assert k'.Next() in site.Ways();
    }
  }
}
