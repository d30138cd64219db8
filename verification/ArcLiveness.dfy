/** Which branches of a file an execution can come to, decided from the text alone, and so exactly which arcs of
    the universe are taken. */
module ArcLiveness {
  import opened ArcUniverse
  import opened ArcSemantics

  // ---- How a statement can end ----

  datatype Outcome = Falls | Breaks | Continues | Returns

  function Outcomes(ss: seq<Stmt>): set<Outcome> {
    if ss == [] then {Falls} else InTurn(StmtOutcomes(ss[0]), Outcomes(ss[1..]))
  }

  function StmtOutcomes(s: Stmt): set<Outcome> {
    match s
    case Simple(_) => {Falls}
    case Definition(_, _, _) => {Falls}
    case Break(_) => {Breaks}
    case Continue(_) => {Continues}
    case Return(_) => {Returns}
    case If(_, body, orelse) => Outcomes(body) + Outcomes(orelse)
    case Loop(_, body, orelse) => OfLoop(Outcomes(body)) + Outcomes(orelse)
  }

  /** The outcomes of one part, followed by another where the first falls through. */
  function InTurn(first: set<Outcome>, second: set<Outcome>): set<Outcome> {
    if Falls in first then (first - {Falls}) + second else first
  }

  /** How a loop ends because of its body: `break` leaves it, `return` passes through. */
  function OfLoop(body: set<Outcome>): set<Outcome> {
    (if Breaks in body then {Falls} else {}) + body * {Returns}
  }

  // ---- Live branches ----

  /** The lines of the branches that control can come to, once it comes to the block; a nested definition that
      control comes to may be executed, too. */
  function Live(ss: seq<Stmt>): set<int> {
    if ss == [] then {}
    else LiveInside(ss[0]) + if Falls in StmtOutcomes(ss[0]) then Live(ss[1..]) else {}
  }

  function LiveInside(s: Stmt): set<int> {
    match s
    case If(line, body, orelse) => {line} + Live(body) + Live(orelse)
    case Loop(line, body, orelse) => {line} + Live(body) + Live(orelse)
    case Definition(_, _, body) => Live(body)
    case _ => {}
  }

  /** No `if` and no loop anywhere, nested definitions included. */
  predicate Branchless(ss: seq<Stmt>) {
    ss == [] || (BranchlessInside(ss[0]) && Branchless(ss[1..]))
  }

  predicate BranchlessInside(s: Stmt) {
    !s.Branches() && (s.Definition? ==> Branchless(s.body))
  }

  /** No `if` and no loop, nested definitions included, stands behind a statement that cannot fall through. */
  predicate NoDeadBranches(ss: seq<Stmt>) {
    ss == []
    || (NoDeadBranchesInside(ss[0])
        && if Falls in StmtOutcomes(ss[0]) then NoDeadBranches(ss[1..]) else Branchless(ss[1..]))
  }

  predicate NoDeadBranchesInside(s: Stmt) {
    match s
    case If(_, body, orelse) => NoDeadBranches(body) && NoDeadBranches(orelse)
    case Loop(_, body, orelse) => NoDeadBranches(body) && NoDeadBranches(orelse)
    case Definition(_, _, body) => NoDeadBranches(body)
    case _ => true
  }

  // ---- Every outcome happens ----

  /** Where control goes from a block that is followed by `after`. */
  function Destination(o: Outcome, after: Rest): Rest {
    match o
    case Falls => after
    case Breaks => BreakOf(after)
    case Continues => ContinueOf(after)
    case Returns => ExitOf(after)
  }

  lemma {:induction false} OutcomeHappens(ss: seq<Stmt>, after: Rest, from: Rest, o: Outcome)
    requires o in Outcomes(ss) && Reaches(from, Then(ss, after))
    ensures Reaches(from, Destination(o, after))
    decreases ss
  {
    if ss != [] {
      var next := Then(ss[1..], after);
      if o in StmtOutcomes(ss[0]) && (o != Falls || Falls !in Outcomes(ss[1..])) {
        StmtOutcomeHappens(ss[0], Then(ss, after), next, from, o);
      } else {
        StmtOutcomeHappens(ss[0], Then(ss, after), next, from, Falls);
        OutcomeHappens(ss[1..], after, from, o);
      }
    }
  }

  lemma {:induction false} StmtOutcomeHappens(s: Stmt, here: Rest, next: Rest, from: Rest, o: Outcome)
    requires o in StmtOutcomes(s) && Reaches(from, here) && Steps(here) == Execute(s, next)
    ensures Reaches(from, Destination(o, next))
    decreases s
  {
    match s
    case If(_, body, orelse) =>
      ReachesNext(from, here, Then(body, next));
      ReachesNext(from, here, Then(orelse, next));
      if o in Outcomes(body) {
        OutcomeHappens(body, next, from, o);
      } else {
        OutcomeHappens(orelse, next, from, o);
      }
    case Loop(_, body, orelse) =>
      ReachesNext(from, here, Then(body, Turn(s, next)));
      ReachesNext(from, here, Then(orelse, next));
      if o in Outcomes(orelse) {
        OutcomeHappens(orelse, next, from, o);
      } else {
        OutcomeHappens(body, Turn(s, next), from, if o == Falls then Breaks else o);
      }
    case _ =>
      ReachesNext(from, here, Destination(o, next));
  }

  // ---- Every live branch is visited ----

  ghost predicate Visits(tree: seq<Stmt>, start: Rest, k: Rest, s: Stmt, line: int) {
    Startable(tree, start) && Reaches(start, k) && Branches(k, s, line)
  }

  lemma {:induction false} LiveIsVisited(tree: seq<Stmt>, ss: seq<Stmt>, after: Rest, from: Rest, line: int)
      returns (start: Rest, k: Rest, s: Stmt)
    requires line in Live(ss) && Startable(tree, from) && Reaches(from, Then(ss, after))
    ensures Visits(tree, start, k, s, line)
    decreases ss
  {
    var next := Then(ss[1..], after);
    if line in LiveInside(ss[0]) {
      start, k, s := LiveInsideIsVisited(tree, ss[0], Then(ss, after), next, from, line);
    } else {
      StmtOutcomeHappens(ss[0], Then(ss, after), next, from, Falls);
      start, k, s := LiveIsVisited(tree, ss[1..], after, from, line);
    }
  }

  lemma {:induction false} LiveInsideIsVisited(tree: seq<Stmt>, s: Stmt, here: Rest, next: Rest, from: Rest, line: int)
      returns (start: Rest, k: Rest, branch: Stmt)
    requires line in LiveInside(s) && Startable(tree, from)
    requires Reaches(from, here) && here.Stands(s) && Steps(here) == Execute(s, next)
    ensures Visits(tree, start, k, branch, line)
    decreases s
  {
    match s
    case If(_, body, orelse) =>
      ReachesNext(from, here, Then(body, next));
      ReachesNext(from, here, Then(orelse, next));
      if line == s.line {
        start, k, branch := from, here, s;
      } else if line in Live(body) {
        start, k, branch := LiveIsVisited(tree, body, next, from, line);
      } else {
        start, k, branch := LiveIsVisited(tree, orelse, next, from, line);
      }
    case Loop(_, body, orelse) =>
      ReachesNext(from, here, Then(body, Turn(s, next)));
      ReachesNext(from, here, Then(orelse, next));
      if line == s.line {
        start, k, branch := from, here, s;
      } else if line in Live(body) {
        start, k, branch := LiveIsVisited(tree, body, Turn(s, next), from, line);
      } else {
        start, k, branch := LiveIsVisited(tree, orelse, next, from, line);
      }
    case Definition(_, _, body) =>
      assert StandsOnDefinition(here, s);
      DefinedIsStartable(tree, from, BodyOf(s));
      ReachesItself(BodyOf(s));
      start, k, branch := LiveIsVisited(tree, body, Exit(-DefinitionFirstLine(s)), BodyOf(s), line);
  }

  // ---- Executions stay on the live branches ----

  /** All branches left to execute are live, when control comes here with one of these outcomes. */
  ghost predicate OnLive(k: Rest, outcomes: set<Outcome>, live: set<int>) {
    match k
    case Exit(_) => true
    case Block(stmts, after) =>
      && stmts != []
      && (Falls in outcomes ==> Live(stmts) <= live)
      && OnLive(after, InTurn(outcomes, Outcomes(stmts)), live)
    case Turn(loop, after) =>
      var again := Falls in outcomes || Continues in outcomes;
      && loop.Loop?
      && (again ==> LiveInside(loop) <= live)
      && OnLive(after, OfLoop(outcomes) + if again then StmtOutcomes(loop) else {}, live)
  }

  lemma {:induction false} FewerOutcomes(k: Rest, some: set<Outcome>, more: set<Outcome>, live: set<int>)
    requires OnLive(k, more, live) && some <= more
    ensures OnLive(k, some, live)
  {
    match k
    case Exit(_) =>
    case Block(stmts, after) => FewerOutcomes(after, InTurn(some, Outcomes(stmts)), InTurn(more, Outcomes(stmts)),
                                              live);
    case Turn(loop, after) =>
      var again, ever := Falls in some || Continues in some, Falls in more || Continues in more;
      FewerOutcomes(after, OfLoop(some) + (if again then StmtOutcomes(loop) else {}),
                    OfLoop(more) + (if ever then StmtOutcomes(loop) else {}), live);
  }

  lemma ThenOnLive(ss: seq<Stmt>, after: Rest, live: set<int>)
    requires Live(ss) <= live && OnLive(after, Outcomes(ss), live)
    ensures OnLive(Then(ss, after), {Falls}, live)
  {
    assert InTurn({Falls}, Outcomes(ss)) == Outcomes(ss);
  }

  lemma {:induction false} JumpStaysOnLive(k: Rest, o: Outcome, live: set<int>)
    requires OnLive(k, {o}, live)
    ensures OnLive(Destination(o, k), {Falls}, live)
  {
    if o != Falls {
      match k
      case Exit(_) =>
      case Block(stmts, after) => JumpStaysOnLive(after, o, live);
      case Turn(loop, after) =>
        match o {
          case Breaks => assert OfLoop({o}) + {} == {Falls};
          case Continues => assert OfLoop({o}) == OfLoop({Falls});
          case Returns =>
            assert OfLoop({o}) + {} == {o};
            JumpStaysOnLive(after, o, live);
        }
    }
  }

  lemma ExecuteStaysOnLive(s: Stmt, next: Rest, live: set<int>, k: Rest)
    requires LiveInside(s) <= live && OnLive(next, StmtOutcomes(s), live) && k in Execute(s, next)
    ensures OnLive(k, {Falls}, live)
  {
    match s
    case If(_, body, orelse) =>
      FewerOutcomes(next, Outcomes(body), StmtOutcomes(s), live);
      FewerOutcomes(next, Outcomes(orelse), StmtOutcomes(s), live);
      ThenOnLive(if k == Then(body, next) then body else orelse, next, live);
    case Loop(_, body, orelse) =>
      if k == Then(orelse, next) {
        FewerOutcomes(next, Outcomes(orelse), StmtOutcomes(s), live);
        ThenOnLive(orelse, next, live);
      } else {
        var again := Falls in Outcomes(body) || Continues in Outcomes(body);
        FewerOutcomes(next, OfLoop(Outcomes(body)) + (if again then StmtOutcomes(s) else {}), StmtOutcomes(s), live);
        ThenOnLive(body, Turn(s, next), live);
      }
    case Break(_) => JumpStaysOnLive(next, Breaks, live);
    case Continue(_) => JumpStaysOnLive(next, Continues, live);
    case Return(_) => JumpStaysOnLive(next, Returns, live);
    case _ =>
  }

  /** The statement executed next, when it is a branch, is live. */
  lemma StandsOnLive(k: Rest, live: set<int>) returns (s: Stmt, next: Rest)
    requires OnLive(k, {Falls}, live) && !k.Exit?
    ensures k.Stands(s) && Steps(k) == Execute(s, next)
    ensures LiveInside(s) <= live && OnLive(next, StmtOutcomes(s), live)
    ensures s.Branches() ==> s.line in live
  {
    match k
    case Block(stmts, after) =>
      s, next := stmts[0], Then(stmts[1..], after);
      assert InTurn({Falls}, Outcomes(stmts)) == Outcomes(stmts);
      if stmts[1..] == [] {
        assert InTurn(StmtOutcomes(s), {Falls}) == StmtOutcomes(s);
      }
    case Turn(loop, after) =>
      s, next := loop, after;
      assert OfLoop({Falls}) + StmtOutcomes(loop) == StmtOutcomes(loop);
  }

  lemma {:induction false} RunStaysOnLive(run: seq<Rest>, from: Rest, to: Rest, live: set<int>)
    requires IsRun(run, from, to) && OnLive(from, {Falls}, live)
    ensures OnLive(to, {Falls}, live)
    decreases |run|
  {
    if |run| > 1 {
      var before := run[|run| - 2];
      var shorter := run[..|run| - 1];
      forall i | 0 <= i < |shorter| - 1
        ensures shorter[i + 1] in Steps(shorter[i])
      {
        assert run[i + 1] in Steps(run[i]);
      }
      RunStaysOnLive(shorter, from, before, live);
      assert run[|run| - 2 + 1] in Steps(before);
      var s, next := StandsOnLive(before, live);
      ExecuteStaysOnLive(s, next, live, to);
    }
  }

  lemma DefinedOnLive(from: Rest, to: Rest, live: set<int>)
    requires OnLive(from, {Falls}, live) && Defines(from, to)
    ensures OnLive(to, {Falls}, live)
  {
    var k, d :| Reaches(from, k) && StandsOnDefinition(k, d) && to == BodyOf(d);
    var run :| IsRun(run, from, k);
    RunStaysOnLive(run, from, k, live);
    var s, next := StandsOnLive(k, live);
    ThenOnLive(d.body, Exit(-DefinitionFirstLine(d)), live);
  }

  lemma StartsOnLive(tree: seq<Stmt>, start: Rest)
    requires Startable(tree, start)
    ensures OnLive(start, {Falls}, Live(tree))
  {
    var live := Live(tree);
    var chain :| IsChain(chain, tree, start);
    ThenOnLive(tree, Exit(-1), live);
    forall from, to | OnLive(from, {Falls}, live) && Defines(from, to)
      ensures OnLive(to, {Falls}, live)
    {
      DefinedOnLive(from, to, live);
    }
    ChainKeeps(chain, tree, start, k => OnLive(k, {Falls}, live));
  }

  lemma VisitedIsLive(tree: seq<Stmt>, start: Rest, k: Rest, s: Stmt)
    requires Startable(tree, start) && Reaches(start, k) && k.Stands(s) && s.Branches()
    ensures s.line in Live(tree)
  {
    StartsOnLive(tree, start);
    var run :| IsRun(run, start, k);
    RunStaysOnLive(run, start, k, Live(tree));
    var t, next := StandsOnLive(k, Live(tree));
  }

  // ---- Dead branches ----

  lemma {:induction false} LiveLines(ss: seq<Stmt>)
    ensures Live(ss) <= Lines(ss)
    decreases ss
  {
    if ss != [] {
      LiveInnerLines(ss[0]);
      LiveLines(ss[1..]);
    }
  }

  lemma {:induction false} LiveInnerLines(s: Stmt)
    ensures LiveInside(s) <= InnerLines(s) + if s.Branches() then {s.line} else {}
    decreases s
  {
    match s
    case If(_, body, orelse) =>
      LiveLines(body);
      LiveLines(orelse);
    case Loop(_, body, orelse) =>
      LiveLines(body);
      LiveLines(orelse);
    case Definition(_, _, body) => LiveLines(body);
    case _ =>
  }

  lemma {:induction false} SomeBranch(ss: seq<Stmt>, cont: Mark) returns (site: Site)
    requires !Branchless(ss)
    ensures site in Sites(ss, cont) && site.stmt.Branches()
    decreases ss
  {
    var next := First(ss[1..], cont);
    if ss[0].Branches() {
      site := Site(ss[0], next);
    } else if !BranchlessInside(ss[0]) {
      site := SomeBranch(ss[0].body, ExitMark(ss[0]));
    } else {
      site := SomeBranch(ss[1..], cont);
    }
  }

  lemma {:induction false} BranchlessHasNone(ss: seq<Stmt>, cont: Mark, site: Site)
    requires Branchless(ss) && site in Sites(ss, cont)
    ensures !site.stmt.Branches()
    decreases ss
  {
    var next := First(ss[1..], cont);
    if site in InnerSites(ss[0], next) {
      BranchlessHasNone(ss[0].body, ExitMark(ss[0]), site);
    } else if site != Site(ss[0], next) {
      BranchlessHasNone(ss[1..], cont, site);
    }
  }

  /** Unless all branches are live, some branch is not. */
  lemma {:induction false} DeadBranch(ss: seq<Stmt>, cont: Mark) returns (site: Site)
    requires Distinct(ss) && !NoDeadBranches(ss)
    ensures site in Sites(ss, cont) && site.stmt.Branches() && site.stmt.line !in Live(ss)
    decreases ss
  {
    var next := First(ss[1..], cont);
    LiveInnerLines(ss[0]);
    LiveLines(ss[1..]);
    if !NoDeadBranchesInside(ss[0]) {
      site := DeadBranchInside(ss[0], next);
      InnerSiteLines(ss[0], next, site);
    } else if Falls in StmtOutcomes(ss[0]) {
      site := DeadBranch(ss[1..], cont);
      SiteLines(ss[1..], cont, site);
    } else {
      site := SomeBranch(ss[1..], cont);
      SiteLines(ss[1..], cont, site);
    }
  }

  lemma {:induction false} DeadBranchInside(s: Stmt, next: Mark) returns (site: Site)
    requires DistinctInside(s) && !NoDeadBranchesInside(s)
    ensures site in InnerSites(s, next) && site.stmt.Branches() && site.stmt.line !in LiveInside(s)
    decreases s
  {
    LiveInnerLines(s);
    if s.Definition? {
      site := DeadBranch(s.body, ExitMark(s));
    } else {
      LiveLines(s.body);
      LiveLines(s.orelse);
      var bodyNext := if s.If? then next else Same(s.line);
      if !NoDeadBranches(s.body) {
        site := DeadBranch(s.body, bodyNext);
        SiteLines(s.body, bodyNext, site);
      } else {
        site := DeadBranch(s.orelse, next);
        SiteLines(s.orelse, next, site);
      }
    }
  }

  lemma {:induction false} AllAreLive(ss: seq<Stmt>, cont: Mark, site: Site)
    requires NoDeadBranches(ss) && site in Sites(ss, cont) && site.stmt.Branches()
    ensures site.stmt.line in Live(ss)
    decreases ss
  {
    var next := First(ss[1..], cont);
    if site in {Site(ss[0], next)} + InnerSites(ss[0], next) {
      AllInsideAreLive(ss[0], next, site);
    } else if Falls in StmtOutcomes(ss[0]) {
      AllAreLive(ss[1..], cont, site);
    } else {
      BranchlessHasNone(ss[1..], cont, site);
    }
  }

  lemma {:induction false} AllInsideAreLive(s: Stmt, next: Mark, site: Site)
    requires NoDeadBranchesInside(s) && site in {Site(s, next)} + InnerSites(s, next) && site.stmt.Branches()
    ensures site.stmt.line in LiveInside(s)
    decreases s
  {
    if site != Site(s, next) {
      match s
      case If(_, body, orelse) => AllAreLive(if site in Sites(body, next) then body else orelse, next, site);
      case Loop(line, body, orelse) =>
        if site in Sites(body, Same(line)) {
          AllAreLive(body, Same(line), site);
        } else {
          AllAreLive(orelse, next, site);
        }
      case Definition(_, _, body) => AllAreLive(body, ExitMark(s), site);
    }
  }

  // ---- Decorated targets ----

  /** No branch goes to a decorated definition: the walk names the line of its `def`, but the first decorator is
      executed before that. */
  predicate PlainTargets(ss: seq<Stmt>, cont: Mark) {
    ss == [] || (PlainTargetsInside(ss[0], First(ss[1..], cont)) && PlainTargets(ss[1..], cont))
  }

  predicate PlainTargetsInside(s: Stmt, next: Mark) {
    match s
    case If(_, body, orelse) =>
      && First(body, next).Plain() && First(orelse, next).Plain()
      && PlainTargets(body, next) && PlainTargets(orelse, next)
    case Loop(line, body, orelse) =>
      && First(body, Same(line)).Plain() && First(orelse, next).Plain()
      && PlainTargets(body, Same(line)) && PlainTargets(orelse, next)
    case Definition(_, _, body) => PlainTargets(body, ExitMark(s))
    case _ => true
  }

  lemma {:induction false} PlainIsNamed(ss: seq<Stmt>, cont: Mark, site: Site)
    requires PlainTargets(ss, cont) && site in Sites(ss, cont)
    ensures site.Targets() == site.Entries()
    decreases ss
  {
    var next := First(ss[1..], cont);
    if site in {Site(ss[0], next)} + InnerSites(ss[0], next) {
      PlainInsideIsNamed(ss[0], next, site);
    } else {
      PlainIsNamed(ss[1..], cont, site);
    }
  }

  lemma {:induction false} PlainInsideIsNamed(s: Stmt, next: Mark, site: Site)
    requires PlainTargetsInside(s, next) && site in {Site(s, next)} + InnerSites(s, next)
    ensures site.Targets() == site.Entries()
    decreases s
  {
    if site == Site(s, next) {
      assert forall way :: way in site.Ways() ==> way.Plain();
    } else {
      match s
      case If(_, body, orelse) => PlainIsNamed(if site in Sites(body, next) then body else orelse, next, site);
      case Loop(line, body, orelse) =>
        if site in Sites(body, Same(line)) {
          PlainIsNamed(body, Same(line), site);
        } else {
          PlainIsNamed(orelse, next, site);
        }
      case Definition(_, _, body) => PlainIsNamed(body, ExitMark(s), site);
    }
  }

  /** The mark names and enters lines outside this set. */
  predicate Outside(mark: Mark, lines: set<Line>) {
    mark.named !in lines && mark.entered !in lines
  }

  lemma FirstIsOutside(ss: seq<Stmt>, cont: Mark, lines: set<Line>)
    requires Outside(cont, lines) && Lines(ss) !! lines
    ensures Outside(First(ss, cont), lines)
  {
    if ss != [] {
      EntryIsOwn(ss[0]);
    }
  }

  lemma EntryIsOwn(s: Stmt)
    ensures EntryLine(s) in OwnLines(s)
  {
    if s.Definition? {
      LeastIsOne(s.line, s.decorators);
    }
  }

  lemma {:induction false} LeastIsOne(a: Line, rest: seq<Line>)
    ensures Least(a, rest) == a || Least(a, rest) in rest
    decreases |rest|
  {
    if rest != [] {
      LeastIsOne(if rest[0] < a then rest[0] else a, rest[1..]);
    }
  }

  /** Two ways that are the same or have no line in common name the lines they enter only if both are plain. */
  lemma NamedIsPlain(a: Mark, b: Mark)
    requires a == b || {a.named, a.entered} !! {b.named, b.entered}
    requires {a.named, b.named} == {a.entered, b.entered}
    ensures a.Plain() && b.Plain()
  {
    assert a.named in {a.entered, b.entered} && b.named in {a.entered, b.entered};
  }

  /** The two ways of a branch with these parts are the same or have no line in common. */
  lemma WaysAreApart(body: seq<Stmt>, bodyNext: Mark, orelse: seq<Stmt>, next: Mark)
    requires Lines(body) !! Lines(orelse) && Outside(next, Lines(body)) && Outside(bodyNext, Lines(orelse))
    requires bodyNext == next || {bodyNext.named, bodyNext.entered} !! {next.named, next.entered}
    ensures var a, b := First(body, bodyNext), First(orelse, next);
      a == b || {a.named, a.entered} !! {b.named, b.entered}
  {
    if body != [] {
      EntryIsOwn(body[0]);
      assert OwnLines(body[0]) <= Lines(body);
    }
    if orelse != [] {
      EntryIsOwn(orelse[0]);
      assert OwnLines(orelse[0]) <= Lines(orelse);
    }
  }

  /** Unless all targets are plain, some branch has targets other than the lines it enters. */
  lemma {:induction false} Misnamed(ss: seq<Stmt>, cont: Mark) returns (site: Site)
    requires Distinct(ss) && !PlainTargets(ss, cont) && Outside(cont, Lines(ss))
    ensures site in Sites(ss, cont) && site.stmt.Branches() && site.Targets() != site.Entries()
    decreases ss
  {
    var next := First(ss[1..], cont);
    if !PlainTargetsInside(ss[0], next) {
      FirstIsOutside(ss[1..], cont, OwnLines(ss[0]) + InnerLines(ss[0]));
      site := MisnamedInside(ss[0], next);
    } else {
      site := Misnamed(ss[1..], cont);
    }
  }

  lemma {:induction false} MisnamedInside(s: Stmt, next: Mark) returns (site: Site)
    requires DistinctInside(s) && !PlainTargetsInside(s, next) && Outside(next, OwnLines(s) + InnerLines(s))
    ensures site in {Site(s, next)} + InnerSites(s, next) && site.stmt.Branches() && site.Targets() != site.Entries()
    decreases s
  {
    if s.Definition? {
      site := Misnamed(s.body, ExitMark(s));
    } else {
      var bodyNext := if s.If? then next else Same(s.line);
      var a, b := First(s.body, bodyNext), First(s.orelse, next);
      if !a.Plain() || !b.Plain() {
        site := Site(s, next);
        WaysAreApart(s.body, bodyNext, s.orelse, next);
        WaysOf(site, a, b);
        if site.Targets() == site.Entries() {
          NamedIsPlain(a, b);
        }
      } else if !PlainTargets(s.body, bodyNext) {
        site := Misnamed(s.body, bodyNext);
      } else {
        site := Misnamed(s.orelse, next);
      }
    }
  }

  lemma WaysOf(site: Site, a: Mark, b: Mark)
    requires site.Ways() == {a, b}
    ensures site.Targets() == {a.named, b.named} && site.Entries() == {a.entered, b.entered}
  {
    assert a in site.Ways() && b in site.Ways();
  }

  // ---- Which arcs are taken ----

  /** The lines that the branches on one line enter together. */
  ghost function EntriesAt(sites: set<Site>, line: int): set<int> {
    set site, e | site in sites && site.stmt.line == line && e in site.Entries() :: e
  }

  lemma EntriesOfOne(tree: seq<Stmt>, site: Site)
    requires Distinct(tree) && site in FileSites(tree)
    ensures EntriesAt(FileSites(tree), site.stmt.line) == site.Entries()
  {
    forall other | other in FileSites(tree) && other.stmt.line == site.stmt.line
      ensures other == site
    {
      OnlySite(tree, site, other);
    }
  }

  /** Executions take exactly the transitions from the live branches to the lines that these enter. */
  lemma TakenExactly(tree: seq<Stmt>, line: int, target: int)
    requires Distinct(tree)
    ensures Takes(tree, line, target) <==> line in Live(tree) && target in EntriesAt(FileSites(tree), line)
  {
    if Takes(tree, line, target) {
      var start, k, k', s :|
        Startable(tree, start) && Reaches(start, k) && Branches(k, s, line) && k' in Steps(k) && k'.Line() == target;
      var site := StandsOnItsSite(tree, start, k, s);
      assert k'.Next() in site.Ways();
      EntriesOfOne(tree, site);
      VisitedIsLive(tree, start, k, s);
    }
    if line in Live(tree) && target in EntriesAt(FileSites(tree), line) {
      ModuleIsStartable(tree);
      ReachesItself(Then(tree, Exit(-1)));
      var start, k, s := LiveIsVisited(tree, tree, Exit(-1), Then(tree, Exit(-1)), line);
      var site := StandsOnItsSite(tree, start, k, s);
      EntriesOfOne(tree, site);
      var way :| way in site.Ways() && way.entered == target;
      var k' :| k' in Steps(k) && k'.Next() == way;
      assert k'.Line() == target;
    }
  }

  ghost predicate Exact(tree: seq<Stmt>, raw: map<int, set<int>>) {
    forall line, target :: Takes(tree, line, target) <==> line in raw && target in raw[line]
  }

  /** The universe of a file is, line by line, the set of transitions that executions take, if and only if no
      branch is dead and none goes to a decorated definition. */
  lemma ExactExactly(tree: seq<Stmt>, raw: map<int, set<int>>)
    requires Distinct(tree) && Adds(map[], raw, FileSites(tree))
    ensures Exact(tree, raw) <==> NoDeadBranches(tree) && PlainTargets(tree, Same(-1))
  {
    if !NoDeadBranches(tree) {
      var site := DeadBranch(tree, Same(-1));
      DeadIsInexact(tree, raw, site);
    } else if !PlainTargets(tree, Same(-1)) {
      var site := Misnamed(tree, Same(-1));
      AllAreLive(tree, Same(-1), site);
      MisnamedIsInexact(tree, raw, site);
    } else {
      forall line, target
        ensures Takes(tree, line, target) <==> line in raw && target in raw[line]
      {
        PlainAndLiveIsExact(tree, raw, line, target);
      }
    }
  }

  lemma DeadIsInexact(tree: seq<Stmt>, raw: map<int, set<int>>, site: Site)
    requires Distinct(tree) && Adds(map[], raw, FileSites(tree))
    requires site in FileSites(tree) && site.stmt.Branches() && site.stmt.line !in Live(tree)
    ensures site.stmt.line in raw && raw[site.stmt.line] == site.Targets()
    ensures forall target :: !Takes(tree, site.stmt.line, target)
    ensures !Exact(tree, raw)
  {
    TargetsOfOne(tree, site);
    assert BranchAt(FileSites(tree), site.stmt.line);
    forall target
      ensures !Takes(tree, site.stmt.line, target)
    {
      TakenExactly(tree, site.stmt.line, target);
    }
    var way :| way in site.Ways();
    assert way.named in site.Targets();
  }

  lemma MisnamedIsInexact(tree: seq<Stmt>, raw: map<int, set<int>>, site: Site)
    requires Distinct(tree) && Adds(map[], raw, FileSites(tree))
    requires site in FileSites(tree) && site.stmt.Branches() && site.stmt.line in Live(tree)
    requires site.Targets() != site.Entries()
    ensures !Exact(tree, raw)
  {
    var line := site.stmt.line;
    TargetsOfOne(tree, site);
    EntriesOfOne(tree, site);
    assert BranchAt(FileSites(tree), line);
    var target :| (target in site.Targets()) != (target in site.Entries());
    TakenExactly(tree, line, target);
    assert Takes(tree, line, target) <==> target in site.Entries();
  }

  lemma PlainAndLiveIsExact(tree: seq<Stmt>, raw: map<int, set<int>>, line: int, target: int)
    requires Distinct(tree) && Adds(map[], raw, FileSites(tree))
    requires NoDeadBranches(tree) && PlainTargets(tree, Same(-1))
    ensures Takes(tree, line, target) <==> line in raw && target in raw[line]
  {
    TakenExactly(tree, line, target);
    if line in raw {
      var site :| site in FileSites(tree) && site.stmt.Branches() && site.stmt.line == line;
      AllAreLive(tree, Same(-1), site);
      PlainIsNamed(tree, Same(-1), site);
      TargetsOfOne(tree, site);
      EntriesOfOne(tree, site);
    }
  }

  // ---- Files without jumps ----

  predicate JumpFree(ss: seq<Stmt>) {
    ss == [] || (JumpFreeInside(ss[0]) && JumpFree(ss[1..]))
  }

  predicate JumpFreeInside(s: Stmt) {
    match s
    case If(_, body, orelse) => JumpFree(body) && JumpFree(orelse)
    case Loop(_, body, orelse) => JumpFree(body) && JumpFree(orelse)
    case Definition(_, _, body) => JumpFree(body)
    case _ => s.Simple?
  }

  lemma {:induction false} JumpFreeFallsThrough(ss: seq<Stmt>)
    requires JumpFree(ss)
    ensures Outcomes(ss) == {Falls} && NoDeadBranches(ss)
    decreases ss
  {
    if ss != [] {
      JumpFreeStmtFallsThrough(ss[0]);
      JumpFreeFallsThrough(ss[1..]);
    }
  }

  lemma {:induction false} JumpFreeStmtFallsThrough(s: Stmt)
    requires JumpFreeInside(s)
    ensures StmtOutcomes(s) == {Falls} && NoDeadBranchesInside(s)
    decreases s
  {
    match s
    case If(_, body, orelse) =>
      JumpFreeFallsThrough(body);
      JumpFreeFallsThrough(orelse);
    case Loop(_, body, orelse) =>
      JumpFreeFallsThrough(body);
      JumpFreeFallsThrough(orelse);
    case Definition(_, _, body) => JumpFreeFallsThrough(body);
    case _ =>
  }

  /** In particular the universe of a file without jumps is exact unless a branch goes to a decorated definition. */
  lemma UniverseWithoutJumps(tree: seq<Stmt>, raw: map<int, set<int>>)
    requires Distinct(tree) && JumpFree(tree) && Adds(map[], raw, FileSites(tree))
    ensures Exact(tree, raw) <==> PlainTargets(tree, Same(-1))
  {
    JumpFreeFallsThrough(tree);
    ExactExactly(tree, raw);
  }

  // ---- Examples ----

  lemma InFront(s: Stmt, ss: seq<Stmt>, cont: Mark)
    ensures Lines([s] + ss) == OwnLines(s) + InnerLines(s) + Lines(ss)
    ensures Distinct([s] + ss) <==> DistinctInside(s) && Distinct(ss) && (OwnLines(s) + InnerLines(s)) !! Lines(ss)
    ensures Live([s] + ss) == LiveInside(s) + if Falls in StmtOutcomes(s) then Live(ss) else {}
    ensures var next := First(ss, cont);
      Sites([s] + ss, cont) == {Site(s, next)} + InnerSites(s, next) + Sites(ss, cont)
  {
    assert ([s] + ss)[0] == s && ([s] + ss)[1..] == ss;
  }

  lemma OneStatement(s: Stmt, cont: Mark)
    ensures Lines([s]) == OwnLines(s) + InnerLines(s) && (Distinct([s]) <==> DistinctInside(s))
    ensures Live([s]) == LiveInside(s) && Sites([s], cont) == {Site(s, cont)} + InnerSites(s, cont)
  {
    InFront(s, [], cont);
    assert [s] + [] == [s];
  }

  /** Whatever stands behind a `return`, in nested definitions too, has its arcs in the universe, and nothing takes
      them. */
  lemma BehindReturnIsDead(s: Stmt, ss: seq<Stmt>, raw: map<int, set<int>>, site: Site)
    requires s.Return? && Distinct([s] + ss) && Adds(map[], raw, FileSites([s] + ss))
    requires site in Sites(ss, Same(-1)) && site.stmt.Branches()
    ensures site.stmt.line in raw && raw[site.stmt.line] == site.Targets()
    ensures forall target :: !Takes([s] + ss, site.stmt.line, target)
  {
    InFront(s, ss, Same(-1));
    DeadIsInexact([s] + ss, raw, site);
  }

  lemma OneIf(line: Line, inner: Line, cont: Mark)
    requires line != inner
    ensures var s := If(line, [Simple(inner)], []);
      && DistinctInside(s) && InnerLines(s) == {inner} && Distinct([s]) && Lines([s]) == {line, inner}
      && Site(s, cont).Ways() == {Same(inner), cont} && Site(s, cont) in Sites([s], cont)
  {
    OneStatement(Simple(inner), cont);
    OneStatement(If(line, [Simple(inner)], []), cont);
  }

  /** The arcs of an `if` behind a `return` are in the universe, and nothing takes them. */
  lemma DeadCodeHasArcs(raw: map<int, set<int>>) returns (tree: seq<Stmt>)
    ensures Distinct(tree)
    ensures Adds(map[], raw, FileSites(tree)) ==>
              2 in raw && raw[2] == {3, -1} && forall target :: !Takes(tree, 2, target)
  {
    var branch := If(2, [Simple(3)], []);
    var site := Site(branch, Same(-1));
    tree := [Return(1)] + [branch];
    OneIf(2, 3, Same(-1));
    InFront(Return(1), [branch], Same(-1));
    WaysOf(site, Same(3), Same(-1));
    if Adds(map[], raw, FileSites(tree)) {
      BehindReturnIsDead(Return(1), [branch], raw, site);
    }
  }

  /** So are those of an `if` in a definition behind a `return`. */
  lemma DeadDefinitionHasArcs(raw: map<int, set<int>>) returns (tree: seq<Stmt>)
    ensures Distinct(tree)
    ensures Adds(map[], raw, FileSites(tree)) ==>
              3 in raw && raw[3] == {4, -2} && forall target :: !Takes(tree, 3, target)
  {
    var branch := If(3, [Simple(4)], []);
    var d, site := Definition(2, [], [branch]), Site(branch, Same(-2));
    tree := [Return(1)] + [d];
    OneIf(3, 4, Same(-2));
    OneStatement(d, Same(-1));
    InFront(Return(1), [d], Same(-1));
    WaysOf(site, Same(4), Same(-2));
    if Adds(map[], raw, FileSites(tree)) {
      BehindReturnIsDead(Return(1), [d], raw, site);
    }
  }

  /** An `if` whose body is a definition on line 3 with a decorator on line 2: the universe holds the arc to line 3,
      execution goes to line 2. */
  lemma DecoratedTargetIsMisnamed(raw: map<int, set<int>>) returns (tree: seq<Stmt>)
    ensures Distinct(tree)
    ensures Adds(map[], raw, FileSites(tree)) ==> 1 in raw && raw[1] == {3, -1}
    ensures Takes(tree, 1, 2) && !Takes(tree, 1, 3)
  {
    var d := Definition(3, [2], [Simple(4)]);
    var branch := If(1, [d], []);
    tree := [branch];
    OneStatement(Simple(4), Same(-2));
    assert DefinitionFirstLine(d) == 2 by {
      assert Least(2, [2][1..]) == 2;
    }
    OneStatement(d, Same(-1));
    OneStatement(branch, Same(-1));
    var site := Site(branch, Same(-1));
    WaysOf(site, Mark(3, 2), Same(-1));
    TargetsOfOne(tree, site);
    EntriesOfOne(tree, site);
    assert BranchAt(FileSites(tree), 1);
    TakenExactly(tree, 1, 2);
    TakenExactly(tree, 1, 3);
  }
}
