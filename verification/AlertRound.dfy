/**
 One round of alert delivery (backend/app/main.py): the matches are grouped by symbol, each group is
 a task that holds one permit of a semaphore from its first match to its last, and a cancelled round
 drains every task before it leaves.
 */
module AlertRound {
  import Sets

  datatype Match = Match(ruleId: string, opportunityId: string, symbol: string)

  // ---------- grouping ----------

  function OfSymbol(matches: seq<Match>, symbol: string): (mine: seq<Match>)
    ensures forall m :: m in mine <==> m in matches && m.symbol == symbol
  {
    if matches == [] then []
    else
      var (mine, last) := (OfSymbol(matches[..|matches| - 1], symbol), matches[|matches| - 1]);
      if last.symbol == symbol then mine + [last] else mine
  }

  /** The symbols in the order they first appear. */
  function FirstSeen(matches: seq<Match>): (symbols: seq<string>)
    ensures forall s :: s in symbols <==> exists m :: m in matches && m.symbol == s
    ensures forall i, j :: 0 <= i < j < |symbols| ==> symbols[i] != symbols[j]
  {
    if matches == [] then []
    else
      var (init, last) := (matches[..|matches| - 1], matches[|matches| - 1]);
      assert forall m :: m in matches <==> m in init || m == last;
      if last.symbol in FirstSeen(init) then FirstSeen(init) else FirstSeen(init) + [last.symbol]
  }

  function Groups(matches: seq<Match>, concurrency: nat): seq<seq<Match>> {
    if concurrency == 1 then [matches]
    else
      var symbols := FirstSeen(matches);
      seq(|symbols|, i requires 0 <= i < |symbols| => OfSymbol(matches, symbols[i]))
  }

  /** Every group holds all matches of its symbol in their order, no two groups share a symbol, and
      together they hold every match. */
  ghost predicate IsPartition(groups: seq<seq<Match>>, matches: seq<Match>) {
    && (forall i :: 0 <= i < |groups| ==> groups[i] != [] && groups[i] == OfSymbol(matches, groups[i][0].symbol))
    && (forall i, j :: 0 <= i < j < |groups| && groups[i] != [] && groups[j] != [] ==>
          groups[i][0].symbol != groups[j][0].symbol)
    && (forall m: Match :: m in matches ==> exists i :: 0 <= i < |groups| && m in groups[i])
  }

  /** The dictionary of groups, filled match by match; its insertion order is the order of the groups. */
  method GroupMatches(matches: seq<Match>, concurrency: nat) returns (groups: seq<seq<Match>>)
    ensures groups == Groups(matches, concurrency)
    ensures concurrency == 1 ==> groups == [matches]
    ensures concurrency != 1 ==> IsPartition(groups, matches)
  {
    hide OfSymbol, FirstSeen, Groups, IsPartition;
    var symbols: seq<string> := [];
    var bySymbol: map<string, seq<Match>> := map[];
    NothingSeen();
    assert matches[..0] == [];
    var i := 0;
    while i < |matches|
      invariant 0 <= i <= |matches|
      invariant symbols == FirstSeen(matches[..i])
      invariant forall s :: s in bySymbol <==> s in symbols
      invariant forall s :: s in bySymbol ==> bySymbol[s] == OfSymbol(matches[..i], s)
    {
      assert matches[..i + 1] == matches[..i] + [matches[i]];
      var symbol := matches[i].symbol;
      OneMoreSeen(matches[..i], matches[i]);
      forall s ensures OfSymbol(matches[..i + 1], s) ==
                         OfSymbol(matches[..i], s) + if s == symbol then [matches[i]] else [] {
        OneMoreOfSymbol(matches[..i], matches[i], s);
      }
      if symbol !in bySymbol {
        NoneOfSymbol(matches[..i], symbol);
        symbols := symbols + [symbol];
        bySymbol := bySymbol[symbol := []];
      }
      bySymbol := bySymbol[symbol := bySymbol[symbol] + [matches[i]]];
      i := i + 1;
    }
    assert matches[..i] == matches;
    if concurrency == 1 {
      groups := [matches];
      OneGroup(matches);
    } else {
      groups := seq(|symbols|, i requires 0 <= i < |symbols| => bySymbol[symbols[i]]);
      GroupsAre(matches, concurrency, groups);
      GroupsPartition(matches, concurrency);
    }
  }

  lemma NothingSeen()
    ensures FirstSeen([]) == [] && forall s :: OfSymbol([], s) == []
  {}

  lemma OneMoreSeen(matches: seq<Match>, m: Match)
    ensures FirstSeen(matches + [m]) ==
              if m.symbol in FirstSeen(matches) then FirstSeen(matches) else FirstSeen(matches) + [m.symbol]
  {
    assert (matches + [m])[..|matches|] == matches;
  }

  lemma OneMoreOfSymbol(matches: seq<Match>, m: Match, symbol: string)
    ensures OfSymbol(matches + [m], symbol) == OfSymbol(matches, symbol) + if m.symbol == symbol then [m] else []
  {
    assert (matches + [m])[..|matches|] == matches;
  }

  lemma OneGroup(matches: seq<Match>)
    ensures Groups(matches, 1) == [matches]
  {}

  lemma GroupsAre(matches: seq<Match>, concurrency: nat, groups: seq<seq<Match>>)
    requires concurrency != 1 && |groups| == |FirstSeen(matches)|
    requires forall i :: 0 <= i < |groups| ==> groups[i] == OfSymbol(matches, FirstSeen(matches)[i])
    ensures groups == Groups(matches, concurrency)
  {}

  lemma NoneOfSymbol(matches: seq<Match>, symbol: string)
    requires symbol !in FirstSeen(matches)
    ensures OfSymbol(matches, symbol) == []
  {
    if OfSymbol(matches, symbol) != [] { assert OfSymbol(matches, symbol)[0] in OfSymbol(matches, symbol); }
  }

  lemma GroupsPartition(matches: seq<Match>, concurrency: nat)
    requires concurrency != 1
    ensures IsPartition(Groups(matches, concurrency), matches)
  {
    var groups: seq<seq<Match>> := Groups(matches, concurrency);
    var symbols := FirstSeen(matches);
    forall i | 0 <= i < |groups| ensures groups[i] != [] && groups[i][0].symbol == symbols[i] {
      assert symbols[i] in symbols;
      var m :| m in matches && m.symbol == symbols[i];
      assert m in groups[i];
      assert groups[i][0] in groups[i];
    }
    forall m: Match | m in matches ensures exists i :: 0 <= i < |groups| && m in groups[i] {
      assert m.symbol in symbols;
      var i :| 0 <= i < |symbols| && symbols[i] == m.symbol;
      assert m in groups[i];
    }
  }

  // ---------- the tasks of a round ----------

  /** `begun` matches have been started, the last of them still running when `running`; `ok` says that
      every finished one succeeded. */
  datatype Task =
    | Waiting
    | Holding(begun: nat, running: bool, ok: bool)
    | Done(allOk: bool)
    | Cancelled(started: nat)

  datatype Start = Start(group: nat, alert: Match)

  /** A match of that group has returned. */
  datatype Finish = Finish(group: nat, ok: bool)

  /** `starts` and `finishes` are the history of the matches. */
  datatype Round = Round(
    groups: seq<seq<Match>>, tasks: seq<Task>, permits: nat, starts: seq<Start>, finishes: seq<Finish>)

  datatype Action =
    | Acquire(task: nat)
    | StartMatch(task: nat)
    | FinishMatch(task: nat, ok: bool)
    | Release(task: nat)
    | Cancel(task: nat)

  function Begin(matches: seq<Match>, concurrency: nat): Round {
    var groups := Groups(matches, concurrency);
    Round(groups, seq(|groups|, i => Waiting), concurrency, [], [])
  }

  predicate Enabled(r: Round, a: Action) {
    && a.task < |r.tasks| == |r.groups|
    && match a {
         case Acquire(i) => r.tasks[i].Waiting? && r.permits > 0
         case StartMatch(i) => r.tasks[i].Holding? && !r.tasks[i].running && r.tasks[i].begun < |r.groups[i]|
         case FinishMatch(i, _) => r.tasks[i].Holding? && r.tasks[i].running
         case Release(i) => r.tasks[i].Holding? && !r.tasks[i].running && r.tasks[i].begun >= |r.groups[i]|
         case Cancel(i) => r.tasks[i].Waiting? || r.tasks[i].Holding?
       }
  }

  /** One action; an action that is not enabled cannot happen. */
  function Step(r: Round, a: Action): Round {
    if !Enabled(r, a) then r
    else
      match a
      case Acquire(i) => r.(tasks := r.tasks[i := Holding(0, false, true)], permits := r.permits - 1)
      case StartMatch(i) =>
        var t := r.tasks[i];
        r.(tasks := r.tasks[i := t.(begun := t.begun + 1, running := true)],
           starts := r.starts + [Start(i, r.groups[i][t.begun])])
      case FinishMatch(i, ok) =>
        var t := r.tasks[i];
        r.(tasks := r.tasks[i := t.(running := false, ok := t.ok && ok)],
           finishes := r.finishes + [Finish(i, ok)])
      case Release(i) => r.(tasks := r.tasks[i := Done(r.tasks[i].ok)], permits := r.permits + 1)
      case Cancel(i) =>
        var t := r.tasks[i];
        if t.Waiting? then r.(tasks := r.tasks[i := Cancelled(0)])
        else r.(tasks := r.tasks[i := Cancelled(t.begun)], permits := r.permits + 1)
  }

  function Run(matches: seq<Match>, concurrency: nat, actions: seq<Action>): Round {
    if actions == [] then Begin(matches, concurrency)
    else Step(Run(matches, concurrency, actions[..|actions| - 1]), actions[|actions| - 1])
  }

  // ---------- permits ----------

  ghost function Holders(tasks: seq<Task>): set<nat> { set i: nat | i < |tasks| && tasks[i].Holding? }

  ghost function InFlight(r: Round): set<nat> { set i: nat | i < |r.tasks| && r.tasks[i].Holding? && r.tasks[i].running }

  function StartsOf(starts: seq<Start>, i: nat): seq<Match> {
    if starts == [] then []
    else
      var (mine, last) := (StartsOf(starts[..|starts| - 1], i), starts[|starts| - 1]);
      if last.group == i then mine + [last.alert] else mine
  }

  /** What the matches of group i returned, in order. */
  function ResultsOf(finishes: seq<Finish>, i: nat): seq<bool> {
    if finishes == [] then []
    else
      var (mine, last) := (ResultsOf(finishes[..|finishes| - 1], i), finishes[|finishes| - 1]);
      if last.group == i then mine + [last.ok] else mine
  }

  /** What every reachable round satisfies about one task. */
  ghost predicate TaskInv(r: Round, i: nat)
    requires i < |r.tasks| == |r.groups|
  {
    var (t, g, results) := (r.tasks[i], r.groups[i], ResultsOf(r.finishes, i));
    match t
    case Waiting => StartsOf(r.starts, i) == [] && results == []
    case Holding(begun, running, ok) =>
      && begun <= |g| && StartsOf(r.starts, i) == g[..begun] && begun == |results| + (if running then 1 else 0)
      && (ok <==> false !in results)
    case Done(allOk) => StartsOf(r.starts, i) == g && |results| == |g| && (allOk <==> false !in results)
    case Cancelled(started) => |results| <= started <= |g| && StartsOf(r.starts, i) == g[..started]
  }

  ghost predicate Inv(r: Round, groups: seq<seq<Match>>, concurrency: nat) {
    && r.groups == groups && |r.tasks| == |groups|
    && r.permits + |Holders(r.tasks)| == concurrency
    && (forall i :: 0 <= i < |r.tasks| ==> TaskInv(r, i))
    && (forall i :: 0 <= i < |r.starts| ==> r.starts[i].group < |groups| && r.starts[i].alert in groups[r.starts[i].group])
    && (forall i :: 0 <= i < |r.finishes| ==> r.finishes[i].group < |groups|)
  }

  lemma BeginInv(matches: seq<Match>, concurrency: nat)
    ensures Inv(Begin(matches, concurrency), Groups(matches, concurrency), concurrency)
  {
    assert Holders(Begin(matches, concurrency).tasks) == {};
  }

  lemma HoldersAfter(tasks: seq<Task>, i: nat, t: Task)
    requires i < |tasks|
    ensures |Holders(tasks[i := t])| + (if tasks[i].Holding? then 1 else 0)
              == |Holders(tasks)| + (if t.Holding? then 1 else 0)
  {
    SizeAfter(Holders(tasks), Holders(tasks[i := t]), i);
  }

  lemma SizeAfter(before: set<nat>, after: set<nat>, i: nat)
    requires forall j: nat :: j != i ==> (j in after <==> j in before)
    ensures |after| + (if i in before then 1 else 0) == |before| + (if i in after then 1 else 0)
  {
    assert before - {i} == after - {i};
    assert |before - {i}| == |before| - (if i in before then 1 else 0);
    assert |after - {i}| == |after| - (if i in after then 1 else 0);
  }

  lemma StepKeepsPermits(r: Round, a: Action)
    ensures Step(r, a).permits + |Holders(Step(r, a).tasks)| == r.permits + |Holders(r.tasks)|
  {
    hide Holders;
    if Enabled(r, a) { HoldersAfter(r.tasks, a.task, Step(r, a).tasks[a.task]); }
  }

  lemma StartsGrow(starts: seq<Start>, s: Start, i: nat)
    ensures StartsOf(starts + [s], i) == if s.group == i then StartsOf(starts, i) + [s.alert] else StartsOf(starts, i)
  {
    assert (starts + [s])[..|starts|] == starts;
  }

  lemma ResultsGrow(finishes: seq<Finish>, f: Finish, i: nat)
    ensures ResultsOf(finishes + [f], i) == if f.group == i then ResultsOf(finishes, i) + [f.ok] else ResultsOf(finishes, i)
  {
    assert (finishes + [f])[..|finishes|] == finishes;
  }

  lemma StepKeepsTask(r: Round, a: Action, i: nat)
    requires i < |r.tasks| == |r.groups| && TaskInv(r, i)
    ensures |Step(r, a).tasks| == |r.tasks| && Step(r, a).groups == r.groups && TaskInv(Step(r, a), i)
  {
    hide StartsOf, ResultsOf;
    if Enabled(r, a) && a.StartMatch? {
      var (g, k) := (r.groups[a.task], r.tasks[a.task].begun);
      StartsGrow(r.starts, Start(a.task, g[k]), i);
      assert g[..k + 1] == g[..k] + [g[k]];
    }
    if Enabled(r, a) && a.FinishMatch? {
      ResultsGrow(r.finishes, Finish(a.task, a.ok), i);
      OneMoreResult(ResultsOf(r.finishes, i), a.ok);
    }
  }

  lemma OneMoreResult(results: seq<bool>, ok: bool)
    ensures false !in results + [ok] <==> false !in results && ok
  {
    assert (results + [ok])[|results|] == ok;
  }

  lemma StepKeeps(r: Round, a: Action, groups: seq<seq<Match>>, concurrency: nat)
    requires Inv(r, groups, concurrency)
    ensures Inv(Step(r, a), groups, concurrency)
  {
    hide TaskInv, Holders, ResultsOf;
    StepKeepsPermits(r, a);
    assert |Step(r, a).tasks| == |r.tasks|;
    forall i | 0 <= i < |r.tasks| ensures TaskInv(Step(r, a), i) { StepKeepsTask(r, a, i); }
  }

  lemma {:induction false} RunKeeps(matches: seq<Match>, concurrency: nat, actions: seq<Action>)
    ensures Inv(Run(matches, concurrency, actions), Groups(matches, concurrency), concurrency)
  {
    hide Inv, Step, Groups, Begin;
    if actions == [] {
      BeginInv(matches, concurrency);
    } else {
      RunKeeps(matches, concurrency, actions[..|actions| - 1]);
      StepKeeps(Run(matches, concurrency, actions[..|actions| - 1]), actions[|actions| - 1],
        Groups(matches, concurrency), concurrency);
    }
  }

  // ---------- safety of every interleaving ----------

  /** The match that task i is working on. */
  function Current(r: Round, i: nat): Match
    requires i < |r.tasks| == |r.groups| && r.tasks[i].Holding? && 0 < r.tasks[i].begun <= |r.groups[i]|
  {
    r.groups[i][r.tasks[i].begun - 1]
  }

  lemma GroupSymbols(matches: seq<Match>, concurrency: nat, i: nat, j: nat, a: Match, b: Match)
    requires i < |Groups(matches, concurrency)| && j < |Groups(matches, concurrency)| && i != j
    requires a in Groups(matches, concurrency)[i] && b in Groups(matches, concurrency)[j]
    ensures a.symbol != b.symbol
  {}

  /** At most `concurrency` matches are in flight, and no two of the same symbol; a task has one in flight
      exactly while one more was started than has returned. */
  lemma InFlightIsBounded(matches: seq<Match>, concurrency: nat, actions: seq<Action>)
    ensures var r := Run(matches, concurrency, actions);
            && |InFlight(r)| <= concurrency
            && |r.tasks| == |r.groups|
            && (forall i :: 0 <= i < |r.tasks| && !r.tasks[i].Cancelled? ==>
                  |StartsOf(r.starts, i)| == |ResultsOf(r.finishes, i)| + if i in InFlight(r) then 1 else 0)
            && (forall i, j :: i in InFlight(r) && j in InFlight(r) && i != j ==>
                  && 0 < r.tasks[i].begun <= |r.groups[i]| && 0 < r.tasks[j].begun <= |r.groups[j]|
                  && Current(r, i).symbol != Current(r, j).symbol)
  {
    RunKeeps(matches, concurrency, actions);
    hide Run, Groups, StartsOf, ResultsOf;
    var r := Run(matches, concurrency, actions);
    forall i | 0 <= i < |r.tasks| && !r.tasks[i].Cancelled?
      ensures |StartsOf(r.starts, i)| == |ResultsOf(r.finishes, i)| + if i in InFlight(r) then 1 else 0
    {
      assert TaskInv(r, i);
    }
    Sets.SubsetSize(InFlight(r), Holders(r.tasks));
    forall i, j | i in InFlight(r) && j in InFlight(r) && i != j
      ensures 0 < r.tasks[i].begun <= |r.groups[i]| && 0 < r.tasks[j].begun <= |r.groups[j]|
      ensures Current(r, i).symbol != Current(r, j).symbol
    {
      assert TaskInv(r, i) && TaskInv(r, j);
      GroupSymbols(matches, concurrency, i, j, Current(r, i), Current(r, j));
    }
  }

  // ---------- order and exactly-once ----------

  function Started(starts: seq<Start>): seq<Match> {
    seq(|starts|, i requires 0 <= i < |starts| => starts[i].alert)
  }

  lemma GroupHasSymbol(matches: seq<Match>, concurrency: nat, m: Match, i: nat)
    requires concurrency != 1 && i < |Groups(matches, concurrency)| && m in Groups(matches, concurrency)[i]
    ensures i < |FirstSeen(matches)| && m.symbol == FirstSeen(matches)[i] && m in matches
  {}

  lemma SymbolsDiffer(matches: seq<Match>, i: nat, j: nat)
    requires i < |FirstSeen(matches)| && j < |FirstSeen(matches)|
    ensures FirstSeen(matches)[i] == FirstSeen(matches)[j] <==> i == j
  {}

  /** A group and its symbol see the same starts. */
  lemma {:induction false} GroupStarts(matches: seq<Match>, concurrency: nat, starts: seq<Start>, i: nat)
    requires concurrency != 1 && i < |FirstSeen(matches)|
    requires forall k :: 0 <= k < |starts| ==>
               starts[k].group < |Groups(matches, concurrency)| && starts[k].alert in Groups(matches, concurrency)[starts[k].group]
    ensures OfSymbol(Started(starts), FirstSeen(matches)[i]) == StartsOf(starts, i)
  {
    hide OfSymbol, FirstSeen, Groups, StartsOf;
    if starts == [] {
      NothingStarted(i, FirstSeen(matches)[i]);
    } else {
      var (init, last) := (starts[..|starts| - 1], starts[|starts| - 1]);
      GroupStarts(matches, concurrency, init, i);
      GroupHasSymbol(matches, concurrency, last.alert, last.group);
      SymbolsDiffer(matches, i, last.group);
      OneMoreOfSymbol(Started(init), last.alert, FirstSeen(matches)[i]);
      StartsGrow(init, last, i);
      assert starts == init + [last] && Started(starts) == Started(init) + [last.alert];
    }
  }

  lemma NothingStarted(i: nat, symbol: string)
    ensures OfSymbol(Started([]), symbol) == StartsOf([], i) == []
  {}

  lemma {:induction false} OneGroupStarts(starts: seq<Start>)
    requires forall k :: 0 <= k < |starts| ==> starts[k].group == 0
    ensures Started(starts) == StartsOf(starts, 0)
  {
    if starts != [] {
      OneGroupStarts(starts[..|starts| - 1]);
      assert Started(starts) == Started(starts[..|starts| - 1]) + [starts[|starts| - 1].alert];
    }
  }

  ghost predicate Completed(r: Round) { forall i :: 0 <= i < |r.tasks| ==> r.tasks[i].Done? }

  /** What a task has started is the beginning of its group, all of it once the task is done. */
  lemma TaskStarts(r: Round, i: nat)
    requires i < |r.tasks| == |r.groups| && TaskInv(r, i)
    ensures StartsOf(r.starts, i) <= r.groups[i]
    ensures r.tasks[i].Done? ==> StartsOf(r.starts, i) == r.groups[i]
  {
    hide StartsOf;
  }

  /** Matches of a symbol are started in evaluation order, none skipped and none twice; a completed
      round has started all of them. */
  lemma SameSymbolOrder(matches: seq<Match>, concurrency: nat, actions: seq<Action>, symbol: string)
    requires concurrency != 1
    ensures var r := Run(matches, concurrency, actions);
            && OfSymbol(Started(r.starts), symbol) <= OfSymbol(matches, symbol)
            && (Completed(r) ==> OfSymbol(Started(r.starts), symbol) == OfSymbol(matches, symbol))
  {
    RunKeeps(matches, concurrency, actions);
    hide Run, TaskInv, StartsOf, OfSymbol, FirstSeen;
    var r := Run(matches, concurrency, actions);
    if symbol in FirstSeen(matches) {
      var i :| 0 <= i < |FirstSeen(matches)| && FirstSeen(matches)[i] == symbol;
      GroupStarts(matches, concurrency, r.starts, i);
      TaskStarts(r, i);
    } else {
      NoneOfSymbol(matches, symbol);
      forall k | 0 <= k < |r.starts| ensures r.starts[k].alert.symbol != symbol {
        GroupHasSymbol(matches, concurrency, r.starts[k].alert, r.starts[k].group);
      }
      NoStart(r.starts, symbol);
    }
  }

  lemma {:induction false} NoStart(starts: seq<Start>, symbol: string)
    requires forall k :: 0 <= k < |starts| ==> starts[k].alert.symbol != symbol
    ensures OfSymbol(Started(starts), symbol) == []
  {
    if starts != [] {
      NoStart(starts[..|starts| - 1], symbol);
      assert Started(starts)[..|starts| - 1] == Started(starts[..|starts| - 1]);
    }
  }

  lemma {:induction false} Multiplicity(matches: seq<Match>, m: Match)
    ensures multiset(matches)[m] == multiset(OfSymbol(matches, m.symbol))[m]
  {
    if matches != [] {
      var (init, last) := (matches[..|matches| - 1], matches[|matches| - 1]);
      Multiplicity(init, m);
      assert matches == init + [last];
      if last.symbol == m.symbol { assert OfSymbol(matches, m.symbol) == OfSymbol(init, m.symbol) + [last]; }
    }
  }

  /** With one permit there is one group, and the evaluation order of all matches is kept. */
  lemma OnePermitKeepsTheOrder(matches: seq<Match>, actions: seq<Action>)
    ensures var r := Run(matches, 1, actions);
            Started(r.starts) <= matches && (Completed(r) ==> Started(r.starts) == matches)
  {
    RunKeeps(matches, 1, actions);
    hide Run, TaskInv, StartsOf;
    var r := Run(matches, 1, actions);
    OneGroupStarts(r.starts);
    TaskStarts(r, 0);
  }

  lemma {:induction false} ResultIsIn(finishes: seq<Finish>, k: nat)
    requires k < |finishes|
    ensures finishes[k].ok in ResultsOf(finishes, finishes[k].group)
    decreases |finishes|
  {
    if k + 1 < |finishes| { ResultIsIn(finishes[..|finishes| - 1], k); }
  }

  lemma {:induction false} FalseIsFrom(finishes: seq<Finish>, i: nat)
    ensures false in ResultsOf(finishes, i) ==> exists k :: 0 <= k < |finishes| && !finishes[k].ok
  {
    if finishes != [] { FalseIsFrom(finishes[..|finishes| - 1], i); }
  }

  /** In a round that completes every match has been started exactly as often as it was evaluated and has
      returned, all permits are back, and the round is healthy exactly when none returned false. */
  lemma CompletedRound(matches: seq<Match>, concurrency: nat, actions: seq<Action>)
    requires Completed(Run(matches, concurrency, actions))
    ensures var r := Run(matches, concurrency, actions);
            && multiset(Started(r.starts)) == multiset(matches)
            && r.permits == concurrency
            && |r.groups| == |r.tasks| && (forall i :: 0 <= i < |r.tasks| ==> |ResultsOf(r.finishes, i)| == |r.groups[i]|)
            && ((forall k :: 0 <= k < |r.finishes| ==> r.finishes[k].ok) <==> forall i :: 0 <= i < |r.tasks| ==> r.tasks[i].allOk)
  {
    var r := Run(matches, concurrency, actions);
    RunKeeps(matches, concurrency, actions);
    assert multiset(Started(r.starts)) == multiset(matches) by {
      hide Run, Inv;
      if concurrency == 1 {
        OnePermitKeepsTheOrder(matches, actions);
      } else {
        forall m: Match ensures multiset(Started(r.starts))[m] == multiset(matches)[m] {
          Multiplicity(Started(r.starts), m);
          Multiplicity(matches, m);
          SameSymbolOrder(matches, concurrency, actions, m.symbol);
        }
      }
    }
    hide Run, StartsOf, ResultsOf;
    assert Holders(r.tasks) == {};
    forall i | 0 <= i < |r.tasks|
      ensures |ResultsOf(r.finishes, i)| == |r.groups[i]| && (r.tasks[i].allOk <==> false !in ResultsOf(r.finishes, i))
    {
      assert TaskInv(r, i);
    }
    HealthyExactly(r);
  }

  lemma HealthyExactly(r: Round)
    requires Completed(r)
    requires forall i :: 0 <= i < |r.tasks| ==> (r.tasks[i].allOk <==> false !in ResultsOf(r.finishes, i))
    requires forall k :: 0 <= k < |r.finishes| ==> r.finishes[k].group < |r.tasks|
    ensures (forall k :: 0 <= k < |r.finishes| ==> r.finishes[k].ok) <==> forall i :: 0 <= i < |r.tasks| ==> r.tasks[i].allOk
  {
    hide ResultsOf;
    forall k | 0 <= k < |r.finishes| && !r.finishes[k].ok ensures !r.tasks[r.finishes[k].group].allOk {
      ResultIsIn(r.finishes, k);
    }
    forall i | 0 <= i < |r.tasks| && !r.tasks[i].allOk ensures exists k :: 0 <= k < |r.finishes| && !r.finishes[k].ok {
      FalseIsFrom(r.finishes, i);
    }
  }

  // ---------- progress ----------

  predicate Final(t: Task) { t.Done? || t.Cancelled? }

  /** As long as a task is unfinished, some task can move on without being cancelled. */
  lemma NeverStuck(matches: seq<Match>, concurrency: nat, actions: seq<Action>)
    requires concurrency > 0
    requires exists i :: 0 <= i < |Run(matches, concurrency, actions).tasks| && !Final(Run(matches, concurrency, actions).tasks[i])
    ensures exists a :: Enabled(Run(matches, concurrency, actions), a) && !a.Cancel?
  {
    RunKeeps(matches, concurrency, actions);
    hide Run, StartsOf, Groups;
    var r := Run(matches, concurrency, actions);
    var i: nat :| i < |r.tasks| && !Final(r.tasks[i]);
    if r.tasks[i].Waiting? && r.permits > 0 {
      assert Enabled(r, Acquire(i));
    } else {
      var j: nat := i;
      if r.tasks[i].Waiting? {
        assert Holders(r.tasks) != {};
        j :| j in Holders(r.tasks);
      }
      HolderMoves(r, j);
    }
  }

  lemma HolderMoves(r: Round, j: nat)
    requires j < |r.tasks| == |r.groups| && r.tasks[j].Holding?
    ensures exists a :: Enabled(r, a) && !a.Cancel?
  {
    var a := if r.tasks[j].running then FinishMatch(j, true)
             else if r.tasks[j].begun < |r.groups[j]| then StartMatch(j) else Release(j);
    assert Enabled(r, a);
  }

  /** The number of actions a task still has before it. */
  function TaskWork(t: Task, g: seq<Match>): nat {
    match t
    case Waiting => 2 * |g| + 2
    case Holding(begun, running, _) =>
      (if begun <= |g| then 2 * (|g| - begun) else 0) + (if running then 2 else 1)
    case Done(_) => 0
    case Cancelled(_) => 0
  }

  function Work(tasks: seq<Task>, groups: seq<seq<Match>>): nat
    requires |tasks| == |groups|
  {
    if tasks == [] then 0
    else Work(tasks[..|tasks| - 1], groups[..|tasks| - 1]) + TaskWork(tasks[|tasks| - 1], groups[|tasks| - 1])
  }

  lemma {:induction false} WorkOfUpdate(tasks: seq<Task>, groups: seq<seq<Match>>, i: nat, t: Task)
    requires i < |tasks| == |groups|
    ensures Work(tasks[i := t], groups) + TaskWork(tasks[i], groups[i]) == Work(tasks, groups) + TaskWork(t, groups[i])
  {
    var n := |tasks| - 1;
    if i == n {
      assert tasks[i := t][..n] == tasks[..n];
    } else {
      assert tasks[i := t][..n] == tasks[..n][i := t];
      WorkOfUpdate(tasks[..n], groups[..n], i, t);
    }
  }

  function Moves(matches: seq<Match>, concurrency: nat, actions: seq<Action>): nat {
    if actions == [] then 0
    else
      var init := actions[..|actions| - 1];
      Moves(matches, concurrency, init)
        + (if Enabled(Run(matches, concurrency, init), actions[|actions| - 1]) then 1 else 0)
  }

  lemma StepDoesWork(r: Round, a: Action)
    requires |r.tasks| == |r.groups| && Enabled(r, a)
    ensures |Step(r, a).tasks| == |r.groups| && Step(r, a).groups == r.groups
    ensures Work(Step(r, a).tasks, r.groups) < Work(r.tasks, r.groups)
  {
    hide Work;
    WorkOfUpdate(r.tasks, r.groups, a.task, Step(r, a).tasks[a.task]);
  }

  /** No interleaving goes on for ever: each action uses up work that was there at the start. */
  lemma {:induction false} RoundsEnd(matches: seq<Match>, concurrency: nat, actions: seq<Action>)
    ensures var (start, r) := (Begin(matches, concurrency), Run(matches, concurrency, actions));
            && |r.tasks| == |r.groups| == |start.groups| && r.groups == start.groups
            && Moves(matches, concurrency, actions) + Work(r.tasks, r.groups) <= Work(start.tasks, start.groups)
  {
    hide Work, Step, Begin, Enabled;
    RunKeeps(matches, concurrency, actions);
    if actions == [] {
    } else {
      var before := Run(matches, concurrency, actions[..|actions| - 1]);
      RoundsEnd(matches, concurrency, actions[..|actions| - 1]);
      StepOrStay(before, actions[|actions| - 1]);
    }
  }

  lemma StepOrStay(r: Round, a: Action)
    requires |r.tasks| == |r.groups|
    ensures !Enabled(r, a) ==> Step(r, a) == r
    ensures Enabled(r, a) ==> |Step(r, a).tasks| == |r.groups| && Step(r, a).groups == r.groups
                              && Work(Step(r, a).tasks, r.groups) < Work(r.tasks, r.groups)
  {
    if Enabled(r, a) { StepDoesWork(r, a); }
  }

  // ---------- cancellation ----------

  function CancelFirst(n: nat): seq<Action> {
    if n == 0 then [] else CancelFirst(n - 1) + [Cancel(n - 1)]
  }

  lemma CancelFinishes(r: Round, i: nat)
    requires i < |r.tasks| == |r.groups|
    ensures var after := Step(r, Cancel(i));
            && |after.tasks| == |r.tasks| && after.starts == r.starts && after.groups == r.groups && Final(after.tasks[i])
            && forall j :: 0 <= j < |r.tasks| && j != i ==> after.tasks[j] == r.tasks[j]
  {}

  lemma {:induction false} CancelAll(matches: seq<Match>, concurrency: nat, actions: seq<Action>, n: nat)
    requires n <= |Run(matches, concurrency, actions).tasks| == |Run(matches, concurrency, actions).groups|
    ensures var (before, r) := (Run(matches, concurrency, actions), Run(matches, concurrency, actions + CancelFirst(n)));
            && |r.tasks| == |before.tasks| && r.groups == before.groups && r.starts == before.starts
            && forall i :: 0 <= i < n ==> Final(r.tasks[i])
  {
    hide Step, Begin;
    if n == 0 {
      assert actions + CancelFirst(0) == actions;
    } else {
      CancelAll(matches, concurrency, actions, n - 1);
      var all := actions + CancelFirst(n);
      assert all[..|all| - 1] == actions + CancelFirst(n - 1);
      CancelFinishes(Run(matches, concurrency, actions + CancelFirst(n - 1)), n - 1);
    }
  }

  /** A round that is cancelled at any point and then drained leaves nothing in flight and no permit
      held, and has started nothing more. */
  lemma DrainLeavesNoOrphan(matches: seq<Match>, concurrency: nat, actions: seq<Action>)
    ensures var (before, r) := (Run(matches, concurrency, actions),
                                Run(matches, concurrency, actions + CancelFirst(|Groups(matches, concurrency)|)));
            r.starts == before.starts && InFlight(r) == {} && r.permits == concurrency
  {
    hide TaskInv, Groups, StartsOf, Run;
    var n := |Groups(matches, concurrency)|;
    RunKeeps(matches, concurrency, actions);
    RunKeeps(matches, concurrency, actions + CancelFirst(n));
    CancelAll(matches, concurrency, actions, n);
    var r := Run(matches, concurrency, actions + CancelFirst(n));
    assert Holders(r.tasks) == {} && InFlight(r) <= Holders(r.tasks);
  }
}
