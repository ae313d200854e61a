/** Statements whose objects are told by a number and a place, no two of one place: at every moment of
    a run a place holds one object at most, an object is ended in the place it was built in, and no
    place is left with one (`BlockKeepsPlaces`).
  */
module PlacesApart {
  import opened Wrappers
  import opened HaardSource
  import opened CleanupTags

  lemma {:induction false} TagOfParts(tag: nat)
    ensures TagOf(ObjectOf(tag), PlaceOf(tag)) == tag
    decreases tag
  {
    if tag % 2 == 1 {
      TagOfParts(tag / 2);
    }
  }

  // ----- Who is where -----

  /** Which object is in each place; none if one was built in a place that held one, or ended where
      it was not. */
  function Occupied(trace: Trace): Option<map<nat, nat>> {
    if trace == [] then Some(map[])
    else
      var before, last := Occupied(trace[..|trace| - 1]), trace[|trace| - 1];
      if before == None then None
      else
        var here := before.value;
        match last
        case Called(_) => before
        case Built(tag) => if PlaceOf(tag) in here then None else Some(here[PlaceOf(tag) := ObjectOf(tag)])
        case Destroyed(tag) =>
          if PlaceOf(tag) in here && here[PlaceOf(tag)] == ObjectOf(tag) then Some(here - {PlaceOf(tag)}) else None
  }

  // What is last known of a place.

  predicate Concerns(event: Event, place: nat) {
    !event.Called? && PlaceOf(event.object_) == place
  }

  /** The last event in a place. */
  function LastIn(trace: Trace, place: nat): (last: Option<Event>)
    ensures last.Some? ==> Concerns(last.value, place)
  {
    if trace == [] then None
    else if Concerns(trace[|trace| - 1], place) then Some(trace[|trace| - 1])
    else LastIn(trace[..|trace| - 1], place)
  }

  /** An object is built where there is none, and ended where it is the last that was built. */
  ghost predicate Fits(trace: Trace, i: nat)
    requires i < |trace|
  {
    match trace[i]
    case Called(_) => true
    case Built(tag) => var last := LastIn(trace[..i], PlaceOf(tag)); last == None || last.value.Destroyed?
    case Destroyed(tag) => LastIn(trace[..i], PlaceOf(tag)) == Some(Built(tag))
  }

  /** There is an object in a place exactly when the last event there built it. */
  ghost predicate AsLast(trace: Trace, here: map<nat, nat>) {
    forall place: nat {:trigger LastIn(trace, place)} ::
      var last := LastIn(trace, place);
      && (place in here <==> last.Some? && last.value.Built?)
      && (place in here ==> last.value == Built(TagOf(here[place], place)))
  }

  lemma {:induction false} OccupiedFits(trace: Trace)
    ensures Occupied(trace).Some? <==> forall i :: 0 <= i < |trace| ==> Fits(trace, i)
    ensures Occupied(trace).Some? ==> AsLast(trace, Occupied(trace).value)
    decreases |trace|
  {
    hide Occupied, Fits, AsLast;
    if trace == [] {
      NoneYet();
    } else {
      var n := |trace| - 1;
      var before := trace[..n];
      OccupiedFits(before);
      forall i | 0 <= i < n
        ensures Fits(trace, i) == Fits(before, i)
      {
        FitsBefore(trace, i, n);
      }
      assert trace == before + [trace[n]];
      OneMore(before, trace[n]);
    }
  }

  lemma NoneYet()
    ensures Occupied([]).Some? && AsLast([], Occupied([]).value)
  {
  }

  lemma FitsBefore(trace: Trace, i: nat, n: nat)
    requires i < n <= |trace|
    ensures Fits(trace, i) == Fits(trace[..n], i)
  {
    assert trace[..i] == trace[..n][..i];
  }

  lemma OneMore(before: Trace, event: Event)
    requires Occupied(before).Some? ==> AsLast(before, Occupied(before).value)
    ensures Occupied(before + [event]).Some? ==> Occupied(before).Some? && AsLast(before + [event], Occupied(before + [event]).value)
    ensures Occupied(before).Some? ==> (Occupied(before + [event]).Some? <==> Fits(before + [event], |before|))
  {
    hide TagOf, ObjectOf, PlaceOf, AsLast;
    var trace := before + [event];
    assert trace[..|before|] == before;
    if Occupied(before).Some? {
      var here := Occupied(before).value;
      if !event.Called? {
        LastTag(before, here, event.object_);
      }
      if Occupied(trace).Some? {
        LastMore(before, here, event, Occupied(trace).value);
      }
    }
  }

  lemma LastMore(before: Trace, here: map<nat, nat>, event: Event, there: map<nat, nat>)
    requires AsLast(before, here)
    requires match event
             case Called(_) => there == here
             case Built(tag) => there == here[PlaceOf(tag) := ObjectOf(tag)]
             case Destroyed(tag) => there == here - {PlaceOf(tag)}
    ensures AsLast(before + [event], there)
  {
    hide TagOf, ObjectOf, PlaceOf;
    var trace := before + [event];
    assert trace[..|trace| - 1] == before;
    if !event.Called? {
      TagOfParts(event.object_);
    }
    forall place: nat
      ensures LastIn(trace, place) == if Concerns(event, place) then Some(event) else LastIn(before, place)
    {
    }
  }

  lemma LastTag(trace: Trace, here: map<nat, nat>, tag: nat)
    requires AsLast(trace, here)
    ensures PlaceOf(tag) in here <==> LastIn(trace, PlaceOf(tag)).Some? && LastIn(trace, PlaceOf(tag)).value.Built?
    ensures LastIn(trace, PlaceOf(tag)) == Some(Built(tag)) <==> PlaceOf(tag) in here && here[PlaceOf(tag)] == ObjectOf(tag)
  {
    TagOfParts(tag);
    if PlaceOf(tag) in here {
      PartsOfTag(here[PlaceOf(tag)], PlaceOf(tag));
    }
  }

  ghost predicate Lives(trace: Trace, live: set<nat>) {
    var here := Occupied(trace);
    here.Some? && forall tag {:trigger tag in live} :: tag in live <==> PlaceOf(tag) in here.value && here.value[PlaceOf(tag)] == ObjectOf(tag)
  }

  lemma LivesCalled(trace: Trace, live: set<nat>, function_: nat)
    requires Lives(trace, live)
    ensures Lives(trace + [Called(function_)], live)
  {
    assert (trace + [Called(function_)])[..|trace|] == trace;
  }

  lemma LivesBuilt(trace: Trace, live: set<nat>, tag: nat)
    requires Lives(trace, live) && forall other <- live :: PlaceOf(other) != PlaceOf(tag)
    ensures Lives(trace + [Built(tag)], live + {tag})
  {
    var more, here := trace + [Built(tag)], Occupied(trace).value;
    assert more[..|trace|] == trace;
    var there := if PlaceOf(tag) in here then here[PlaceOf(tag)] else 0;
    PartsOfTag(there, PlaceOf(tag));
    assert TagOf(there, PlaceOf(tag)) !in live;
    forall other | PlaceOf(other) == PlaceOf(tag) && ObjectOf(other) == ObjectOf(tag)
      ensures other == tag
    {
      TagOfParts(other);
      TagOfParts(tag);
    }
  }

  lemma LivesDestroyed(trace: Trace, live: set<nat>, tag: nat)
    requires Lives(trace, live) && tag in live
    ensures Lives(trace + [Destroyed(tag)], live - {tag})
  {
    var more, here := trace + [Destroyed(tag)], Occupied(trace).value;
    assert more[..|trace|] == trace;
    forall other | other in live && PlaceOf(other) == PlaceOf(tag)
      ensures other == tag
    {
      TagOfParts(other);
      TagOfParts(tag);
    }
  }

  function SetOf(tags: seq<nat>): set<nat> {
    set tag <- tags
  }

  ghost predicate Distinct(tags: seq<nat>) {
    forall i, j {:trigger tags[i], tags[j]} :: 0 <= i < j < |tags| ==> tags[i] != tags[j]
  }

  lemma {:induction false} LivesEnded(trace: Trace, live: set<nat>, tags: seq<nat>)
    requires Lives(trace, live + SetOf(tags)) && Distinct(tags) && SetOf(tags) !! live
    ensures Lives(trace + LastFirst(tags), live)
    decreases |tags|
  {
    hide Lives;
    if tags == [] {
      assert live + SetOf(tags) == live && trace + LastFirst(tags) == trace;
    } else {
      var last, before := tags[|tags| - 1], tags[..|tags| - 1];
      assert tags == before + [last];
      assert SetOf(tags) == SetOf(before) + {last} && last !in SetOf(before);
      LivesDestroyed(trace, live + SetOf(tags), last);
      assert live + SetOf(tags) - {last} == live + SetOf(before);
      LivesEnded(trace + [Destroyed(last)], live, before);
      assert trace + [Destroyed(last)] + LastFirst(before) == trace + LastFirst(tags);
    }
  }

  // ----- Places of statements -----

  /** The places of an expression's objects are of these numbers, and no two are one. */
  ghost predicate SitesOf(e: Expr, from: nat, to: nat)
    decreases e
  {
    match e
    case Call(_) => from <= to
    case Temporary(tag) => from <= PlaceOf(tag) < to
    case Both(first, second) => exists middle: nat :: SitesOf(first, from, middle) && SitesOf(second, middle, to)
    case Logical(_, left, right) => exists middle: nat :: SitesOf(left, from, middle) && SitesOf(right, middle, to)
  }

  ghost predicate TestSites(hasTest: bool, test: Expr, from: nat, to: nat) {
    if hasTest then SitesOf(test, from, to) else from <= to
  }

  ghost predicate StepSites(steps: Exprs, from: nat, to: nat) {
    match steps
    case NoMore => from <= to
    case More(first, rest) => exists middle: nat :: SitesOf(first, from, middle) && StepSites(rest, middle, to)
  }

  ghost predicate Sites(body: Stmts, from: nat, to: nat)
    decreases body
  {
    match body
    case Nothing => from <= to
    case Then(first, rest) => exists middle: nat :: OneSites(first, from, middle) && Sites(rest, middle, to)
  }

  ghost predicate OneSites(s: Stmt, from: nat, to: nat)
    decreases s
  {
    match s
    case Evaluate(given) => SitesOf(given, from, to)
    case Let(tag, given) => from == PlaceOf(tag) && SitesOf(given, from + 1, to)
    case BlockOf(body) => Sites(body, from, to)
    case IfElse(test, chosen, hasElse, otherwise) =>
      exists first: nat, second: nat :: SitesOf(test, from, first) && Sites(chosen, first, second) && if hasElse then Sites(otherwise, second, to) else second <= to
    case While(hasTest, test, body) => exists middle: nat :: TestSites(hasTest, test, from, middle) && Sites(body, middle, to)
    case For(head, hasTest, test, steps, body) =>
      exists first: nat, second: nat, third: nat ::
        Sites(head, from, first) && TestSites(hasTest, test, first, second) && Sites(body, second, third) && StepSites(steps, third, to)
    case Return(hasValue, given) => TestSites(hasValue, given, from, to)
    case BreakLoop => from <= to
    case ContinueLoop => from <= to
  }

  lemma {:induction false} SitesGo(e: Expr, from: nat, to: nat)
    requires SitesOf(e, from, to)
    ensures from <= to
    decreases e
  {
    match e
    case Call(_) =>
    case Temporary(_) =>
    case Both(first, second) =>
      var middle: nat :| SitesOf(first, from, middle) && SitesOf(second, middle, to);
      SitesGo(first, from, middle);
      SitesGo(second, middle, to);
    case Logical(_, left, right) =>
      var middle: nat :| SitesOf(left, from, middle) && SitesOf(right, middle, to);
      SitesGo(left, from, middle);
      SitesGo(right, middle, to);
  }

  // ----- Running them -----

  ghost predicate Outside(live: set<nat>, from: nat, to: nat) {
    forall tag <- live :: !(from <= PlaceOf(tag) < to)
  }

  ghost predicate Inside(tags: seq<nat>, from: nat, to: nat) {
    Distinct(tags) && forall tag <- tags :: from <= PlaceOf(tag) < to
  }

  lemma InsideApart(tags: seq<nat>, live: set<nat>, from: nat, to: nat)
    requires Inside(tags, from, to) && Outside(live, from, to)
    ensures SetOf(tags) !! live
  {
  }

  /** Two expressions, one after the other. */
  lemma InsideBoth(first: seq<nat>, second: seq<nat>, live: set<nat>, from: nat, middle: nat, to: nat)
    requires Inside(first, from, middle) && Inside(second, middle, to) && from <= middle <= to
    ensures Inside(first + second, from, to) && SetOf(first + second) == SetOf(first) + SetOf(second)
    ensures Outside(live, from, to) ==> Outside(live, from, middle) && Outside(live + SetOf(first), middle, to)
  {
    forall i, j | 0 <= i < j < |first + second|
      ensures (first + second)[i] != (first + second)[j]
    {
      if i < |first| <= j {
        assert first[i] in first && second[j - |first|] in second;
      }
    }
  }

  lemma {:induction false} EvalKeepsPlaces(answers: Answers, e: Expr, trace: Trace, live: set<nat>, from: nat, to: nat)
    requires Lives(trace, live) && SitesOf(e, from, to) && Outside(live, from, to)
    ensures var r := Eval(answers, e, trace); Lives(r.trace, live + SetOf(r.built)) && Inside(r.built, from, to)
    decreases e, 1
  {
    hide Lives, Outside, Inside;
    match e
    case Call(function_) =>
      assert live + SetOf([]) == live;
      LivesCalled(trace, live, function_);
      NoneInside(from, to);
    case Temporary(tag) => TemporaryKeepsPlaces(trace, live, tag, from, to);
    case Both(first, second) =>
      var middle: nat :| SitesOf(first, from, middle) && SitesOf(second, middle, to);
      PairKeepsPlaces(answers, e, trace, live, from, middle, to);
    case Logical(isAnd, left, right) =>
      var middle: nat :| SitesOf(left, from, middle) && SitesOf(right, middle, to);
      PairKeepsPlaces(answers, e, trace, live, from, middle, to);
      var one := Eval(answers, left, trace);
      SitesGo(right, middle, to);
      NoneInside(middle, to);
      SitesGo(left, from, middle);
      InsideBoth(one.built, [], live, from, middle, to);
      assert one.built + [] == one.built;
  }

  lemma NoneInside(from: nat, to: nat)
    ensures Inside([], from, to)
  {
  }

  lemma TemporaryKeepsPlaces(trace: Trace, live: set<nat>, tag: nat, from: nat, to: nat)
    requires Lives(trace, live) && from <= PlaceOf(tag) < to && Outside(live, from, to)
    ensures Lives(trace + [Built(tag)], live + SetOf([tag])) && Inside([tag], from, to)
  {
    LivesBuilt(trace, live, tag);
    assert SetOf([tag]) == {tag};
  }

  function FirstOf(e: Expr): (first: Expr)
    requires e.Both? || e.Logical?
    ensures first < e
  {
    if e.Both? then e.first else e.left
  }

  function SecondOf(e: Expr): (second: Expr)
    requires e.Both? || e.Logical?
    ensures second < e
  {
    if e.Both? then e.second else e.right
  }

  /** The second may run or not. */
  lemma {:induction false} PairKeepsPlaces(answers: Answers, e: Expr, trace: Trace, live: set<nat>, from: nat, middle: nat, to: nat)
    requires (e.Both? || e.Logical?) && Lives(trace, live) && Outside(live, from, to)
    requires SitesOf(FirstOf(e), from, middle) && SitesOf(SecondOf(e), middle, to)
    ensures var one := Eval(answers, FirstOf(e), trace);
            var two := Eval(answers, SecondOf(e), one.trace);
            && Lives(one.trace, live + SetOf(one.built)) && Inside(one.built, from, middle)
            && Lives(two.trace, live + SetOf(one.built + two.built)) && Inside(one.built + two.built, from, to)
    decreases e, 0
  {
    hide Lives, Outside, Inside, Eval;
    var first, second := FirstOf(e), SecondOf(e);
    SitesGo(first, from, middle);
    SitesGo(second, middle, to);
    assert Outside(live, from, middle) by { Narrower(live, from, to, from, middle); }
    EvalKeepsPlaces(answers, first, trace, live, from, middle);
    var one := Eval(answers, first, trace);
    NoneInside(middle, to);
    InsideBoth(one.built, [], live, from, middle, to);
    EvalKeepsPlaces(answers, second, one.trace, live + SetOf(one.built), middle, to);
    var two := Eval(answers, second, one.trace);
    InsideBoth(one.built, two.built, live, from, middle, to);
    assert live + SetOf(one.built) + SetOf(two.built) == live + SetOf(one.built + two.built);
  }

  lemma Narrower(live: set<nat>, from: nat, to: nat, low: nat, high: nat)
    requires Outside(live, from, to) && from <= low && high <= to
    ensures Outside(live, low, high)
  {
  }

  lemma WholeKeepsPlaces(answers: Answers, e: Expr, trace: Trace, live: set<nat>, from: nat, to: nat)
    requires Lives(trace, live) && SitesOf(e, from, to) && Outside(live, from, to)
    ensures Lives(EvalWhole(answers, e, trace).1, live)
  {
    hide Lives, Eval;
    EvalKeepsPlaces(answers, e, trace, live, from, to);
    var r := Eval(answers, e, trace);
    InsideApart(r.built, live, from, to);
    LivesEnded(r.trace, live, r.built);
  }

  lemma TestKeepsPlaces(answers: Answers, hasTest: bool, test: Expr, trace: Trace, live: set<nat>, from: nat, to: nat)
    requires Lives(trace, live) && TestSites(hasTest, test, from, to) && Outside(live, from, to)
    ensures Lives(Tested(answers, hasTest, test, trace).1, live) && from <= to
  {
    hide Lives;
    if hasTest {
      WholeKeepsPlaces(answers, test, trace, live, from, to);
      SitesGo(test, from, to);
    }
  }

  lemma {:induction false} StepsKeepPlaces(answers: Answers, steps: Exprs, trace: Trace, live: set<nat>, from: nat, to: nat)
    requires Lives(trace, live) && StepSites(steps, from, to) && Outside(live, from, to)
    ensures Lives(RunSteps(answers, steps, trace), live) && from <= to
    decreases steps
  {
    hide Lives, EvalWhole;
    if steps.More? {
      var middle: nat :| SitesOf(steps.first, from, middle) && StepSites(steps.rest, middle, to);
      SitesGo(steps.first, from, middle);
      StepSitesGo(steps.rest, middle, to);
      WholeKeepsPlaces(answers, steps.first, trace, live, from, middle);
      StepsKeepPlaces(answers, steps.rest, EvalWhole(answers, steps.first, trace).1, live, middle, to);
    }
  }

  lemma {:induction false} StepSitesGo(steps: Exprs, from: nat, to: nat)
    requires StepSites(steps, from, to)
    ensures from <= to
    decreases steps
  {
    if steps.More? {
      var middle: nat :| SitesOf(steps.first, from, middle) && StepSites(steps.rest, middle, to);
      SitesGo(steps.first, from, middle);
      StepSitesGo(steps.rest, middle, to);
    }
  }

  lemma {:induction false} StmtSitesGo(body: Stmts, from: nat, to: nat)
    requires Sites(body, from, to)
    ensures from <= to
    decreases body, 1
  {
    if body.Then? {
      var middle: nat :| OneSites(body.first, from, middle) && Sites(body.rest, middle, to);
      OneSitesGo(body.first, from, middle);
      StmtSitesGo(body.rest, middle, to);
    }
  }

  lemma {:induction false} OneSitesGo(s: Stmt, from: nat, to: nat)
    requires OneSites(s, from, to)
    ensures from <= to
    decreases s, 0
  {
    match s
    case Evaluate(given) => SitesGo(given, from, to);
    case Let(_, given) => SitesGo(given, from + 1, to);
    case BlockOf(body) => StmtSitesGo(body, from, to);
    case IfElse(test, chosen, hasElse, otherwise) =>
      var first: nat, second: nat :| SitesOf(test, from, first) && Sites(chosen, first, second) && if hasElse then Sites(otherwise, second, to) else second <= to;
      SitesGo(test, from, first);
      StmtSitesGo(chosen, first, second);
      if hasElse {
        StmtSitesGo(otherwise, second, to);
      }
    case While(hasTest, test, body) =>
      var middle: nat :| TestSites(hasTest, test, from, middle) && Sites(body, middle, to);
      if hasTest {
        SitesGo(test, from, middle);
      }
      StmtSitesGo(body, middle, to);
    case For(head, hasTest, test, steps, body) =>
      var first: nat, second: nat, third: nat :|
        Sites(head, from, first) && TestSites(hasTest, test, first, second) && Sites(body, second, third) && StepSites(steps, third, to);
      StmtSitesGo(head, from, first);
      if hasTest {
        SitesGo(test, first, second);
      }
      StmtSitesGo(body, second, third);
      StepSitesGo(steps, third, to);
    case Return(hasValue, given) =>
      if hasValue {
        SitesGo(given, from, to);
      }
    case BreakLoop =>
    case ContinueLoop =>
  }

  /** The locals built so far, apart from what was there. */
  ghost predicate Locals(locals: seq<nat>, live: set<nat>, from: nat, to: nat) {
    Distinct(locals) && SetOf(locals) !! live && Outside(live + SetOf(locals), from, to)
  }

  /** A statement adds to the locals objects in its own places. */
  ghost predicate Adds(locals: seq<nat>, later: seq<nat>, live: set<nat>, from: nat, to: nat) {
    Distinct(later) && SetOf(later) !! live && forall tag <- later :: tag in locals || from <= PlaceOf(tag) < to
  }

  lemma AddsNone(locals: seq<nat>, live: set<nat>, from: nat, to: nat)
    requires Locals(locals, live, from, to)
    ensures Adds(locals, locals, live, from, to)
  {
  }

  lemma AddsMore(locals: seq<nat>, some: seq<nat>, later: seq<nat>, live: set<nat>, from: nat, middle: nat, to: nat)
    requires Adds(locals, some, live, from, middle) && Adds(some, later, live, middle, to) && from <= middle <= to
    ensures Adds(locals, later, live, from, to)
  {
  }

  lemma LocalsOn(locals: seq<nat>, some: seq<nat>, live: set<nat>, from: nat, middle: nat, to: nat)
    requires Locals(locals, live, from, to) && Adds(locals, some, live, from, middle) && from <= middle <= to
    ensures Locals(locals, live, from, middle) && Locals(some, live, middle, to)
  {
  }

  lemma NoLocals(live: set<nat>, from: nat, to: nat)
    requires Outside(live, from, to)
    ensures Locals([], live, from, to) && live + SetOf([]) == live
  {
    assert live + SetOf([]) == live;
  }

  lemma {:induction false} RunKeepsPlaces(answers: Answers, body: Stmts, trace: Trace, locals: seq<nat>, fuel: nat, live: set<nat>, from: nat, to: nat)
    requires Lives(trace, live + SetOf(locals)) && Sites(body, from, to) && Locals(locals, live, from, to)
    ensures var ran := Run(answers, body, trace, locals, fuel); Lives(ran.trace, live + SetOf(ran.locals)) && Adds(locals, ran.locals, live, from, to)
    decreases fuel, body, 1
  {
    hide Lives, Locals, Adds, OneSites, RunOne;
    if body.Then? {
      var middle: nat :| OneSites(body.first, from, middle) && Sites(body.rest, middle, to);
      OneSitesGo(body.first, from, middle);
      StmtSitesGo(body.rest, middle, to);
      assert Locals(locals, live, from, middle) by { LocalsLess(locals, live, from, middle, to); }
      OneKeepsPlaces(answers, body.first, trace, locals, fuel, live, from, middle);
      var one := RunOne(answers, body.first, trace, locals, fuel);
      LocalsOn(locals, one.locals, live, from, middle, to);
      if one.way == GoesOn {
        RunKeepsPlaces(answers, body.rest, one.trace, one.locals, fuel, live, middle, to);
        AddsMore(locals, one.locals, Run(answers, body.rest, one.trace, one.locals, fuel).locals, live, from, middle, to);
      } else {
        AddsNone(one.locals, live, middle, to);
        AddsMore(locals, one.locals, one.locals, live, from, middle, to);
      }
    } else {
      AddsNone(locals, live, from, to);
    }
  }

  lemma LocalsLess(locals: seq<nat>, live: set<nat>, from: nat, middle: nat, to: nat)
    requires Locals(locals, live, from, to) && middle <= to
    ensures Locals(locals, live, from, middle)
  {
  }

  /** A block leaves every place as it found it, however it is left. */
  lemma {:induction false} BlockKeepsPlaces(answers: Answers, body: Stmts, trace: Trace, fuel: nat, live: set<nat>, from: nat, to: nat)
    requires Lives(trace, live) && Sites(body, from, to) && Outside(live, from, to)
    ensures Lives(RunBlock(answers, body, trace, fuel).1, live)
    decreases fuel, body, 2
  {
    hide Lives, Sites, Run, Outside;
    NoLocals(live, from, to);
    RunKeepsPlaces(answers, body, trace, [], fuel, live, from, to);
    var ran := Run(answers, body, trace, [], fuel);
    LivesEnded(ran.trace, live, ran.locals);
  }

  lemma {:induction false} OneKeepsPlaces(answers: Answers, s: Stmt, trace: Trace, locals: seq<nat>, fuel: nat, live: set<nat>, from: nat, to: nat)
    requires Lives(trace, live + SetOf(locals)) && OneSites(s, from, to) && Locals(locals, live, from, to)
    ensures var ran := RunOne(answers, s, trace, locals, fuel); Lives(ran.trace, live + SetOf(ran.locals)) && Adds(locals, ran.locals, live, from, to)
    decreases fuel, s, 2
  {
    hide Lives, Adds, RunBlock, EvalWhole, Eval, Run, RunFor, RunWhile;
    var there := live + SetOf(locals);
    AddsNone(locals, live, from, to);
    match s
    case Evaluate(given) => WholeKeepsPlaces(answers, given, trace, there, from, to);
    case Let(tag, given) => LetKeepsPlaces(answers, tag, given, trace, locals, live, from, to);
    case BlockOf(body) => BlockKeepsPlaces(answers, body, trace, fuel, there, from, to);
    case IfElse(_, _, _, _) => IfKeepsPlaces(answers, s, trace, fuel, there, from, to);
    case While(hasTest, test, body) =>
      var middle: nat :| TestSites(hasTest, test, from, middle) && Sites(body, middle, to);
      StmtSitesGo(body, middle, to);
      WhileKeepsPlaces(answers, s, trace, fuel, there, from, middle, to);
    case For(_, _, _, _, _) => ForKeepsPlaces(answers, s, trace, fuel, there, from, to);
    case Return(hasValue, given) =>
      if hasValue {
        WholeKeepsPlaces(answers, given, trace, there, from, to);
      }
    case BreakLoop =>
    case ContinueLoop =>
  }

  lemma LetKeepsPlaces(answers: Answers, tag: nat, given: Expr, trace: Trace, locals: seq<nat>, live: set<nat>, from: nat, to: nat)
    requires Lives(trace, live + SetOf(locals)) && from == PlaceOf(tag) && SitesOf(given, from + 1, to) && Locals(locals, live, from, to)
    ensures var r := Eval(answers, given, trace);
            && Lives(r.trace + [Built(tag)] + LastFirst(r.built), live + SetOf(locals + [tag]))
            && Adds(locals, locals + [tag], live, from, to)
  {
    hide Eval, Lives, LastFirst;
    var r, there := Eval(answers, given, trace), live + SetOf(locals);
    SitesGo(given, from + 1, to);
    EvalKeepsPlaces(answers, given, trace, there, from + 1, to);
    LivesBuilt(r.trace, there + SetOf(r.built), tag);
    assert there + SetOf(r.built) + {tag} == there + {tag} + SetOf(r.built);
    InsideApart(r.built, there + {tag}, from + 1, to);
    LivesEnded(r.trace + [Built(tag)], there + {tag}, r.built);
    assert SetOf(locals + [tag]) == SetOf(locals) + {tag};
    assert live + SetOf(locals + [tag]) == there + {tag};
  }

  lemma {:induction false} IfKeepsPlaces(answers: Answers, s: Stmt, trace: Trace, fuel: nat, live: set<nat>, from: nat, to: nat)
    requires s.IfElse? && Lives(trace, live) && OneSites(s, from, to) && Outside(live, from, to)
    ensures Lives(RunOne(answers, s, trace, [], fuel).trace, live)
    ensures forall locals: seq<nat> {:trigger RunOne(answers, s, trace, locals, fuel)} ::
              RunOne(answers, s, trace, locals, fuel) == RunOne(answers, s, trace, [], fuel).(locals := locals)
    decreases fuel, s, 0
  {
    hide Lives, RunBlock, EvalWhole;
    var first: nat, second: nat :| SitesOf(s.test, from, first) && Sites(s.chosen, first, second)
                                   && if s.hasElse then Sites(s.otherwise, second, to) else second <= to;
    SitesGo(s.test, from, first);
    StmtSitesGo(s.chosen, first, second);
    if s.hasElse {
      StmtSitesGo(s.otherwise, second, to);
    }
    WholeKeepsPlaces(answers, s.test, trace, live, from, first);
    var (value, after) := EvalWhole(answers, s.test, trace);
    if value != 0 {
      BlockKeepsPlaces(answers, s.chosen, after, fuel, live, first, second);
    } else if s.hasElse {
      BlockKeepsPlaces(answers, s.otherwise, after, fuel, live, second, to);
    }
  }

  lemma {:induction false} WhileKeepsPlaces(answers: Answers, s: Stmt, trace: Trace, fuel: nat, live: set<nat>, from: nat, middle: nat, to: nat)
    requires s.While? && Lives(trace, live) && TestSites(s.hasTest, s.test, from, middle) && Sites(s.body, middle, to)
    requires Outside(live, from, to) && middle <= to
    ensures Lives(RunWhile(answers, s, trace, fuel).1, live)
    decreases fuel, s, 0
  {
    hide Lives, RunBlock, Tested, Sites;
    TestKeepsPlaces(answers, s.hasTest, s.test, trace, live, from, middle);
    var (goesIn, after) := Tested(answers, s.hasTest, s.test, trace);
    if goesIn {
      BlockKeepsPlaces(answers, s.body, after, fuel, live, middle, to);
      var ran := RunBlock(answers, s.body, after, fuel);
      if (ran.0 == GoesOn || ran.0 == Continues) && fuel != 0 {
        WhileKeepsPlaces(answers, s, ran.1, fuel - 1, live, from, middle, to);
      }
    }
  }

  lemma {:induction false} ForKeepsPlaces(answers: Answers, s: Stmt, trace: Trace, fuel: nat, live: set<nat>, from: nat, to: nat)
    requires s.For? && Lives(trace, live) && OneSites(s, from, to) && Outside(live, from, to)
    ensures Lives(RunOne(answers, s, trace, [], fuel).trace, live)
    ensures forall locals: seq<nat> {:trigger RunOne(answers, s, trace, locals, fuel)} ::
              RunOne(answers, s, trace, locals, fuel) == RunOne(answers, s, trace, [], fuel).(locals := locals)
    decreases fuel, s, 1
  {
    hide Lives, Run, RunFor, LastFirst;
    var first: nat, second: nat, third: nat :|
      Sites(s.head, from, first) && TestSites(s.hasTest, s.test, first, second) && Sites(s.body, second, third) && StepSites(s.steps, third, to);
    StmtSitesGo(s.head, from, first);
    StmtSitesGo(s.body, second, third);
    StepSitesGo(s.steps, third, to);
    if s.hasTest {
      SitesGo(s.test, first, second);
    }
    NoLocals(live, from, first);
    RunKeepsPlaces(answers, s.head, trace, [], fuel, live, from, first);
    var begun := Run(answers, s.head, trace, [], fuel);
    if begun.way == GoesOn {
      RoundsKeepPlaces(answers, s, begun.trace, fuel, live + SetOf(begun.locals), first, second, third, to);
      LivesEnded(RunFor(answers, s, begun.trace, fuel).1, live, begun.locals);
    } else {
      LivesEnded(begun.trace, live, begun.locals);
    }
  }

  lemma {:induction false} RoundsKeepPlaces(answers: Answers, s: Stmt, trace: Trace, fuel: nat, live: set<nat>, from: nat, second: nat, third: nat, to: nat)
    requires s.For? && Lives(trace, live) && Outside(live, from, to) && from <= second <= third <= to
    requires TestSites(s.hasTest, s.test, from, second) && Sites(s.body, second, third) && StepSites(s.steps, third, to)
    ensures Lives(RunFor(answers, s, trace, fuel).1, live)
    decreases fuel, s, 0
  {
    hide Lives, RunBlock, Tested, Sites, StepSites, RunSteps;
    TestKeepsPlaces(answers, s.hasTest, s.test, trace, live, from, second);
    var (goesIn, after) := Tested(answers, s.hasTest, s.test, trace);
    if goesIn {
      BlockKeepsPlaces(answers, s.body, after, fuel, live, second, third);
      var ran := RunBlock(answers, s.body, after, fuel);
      if ran.0 == GoesOn || ran.0 == Continues {
        StepsKeepPlaces(answers, s.steps, ran.1, live, third, to);
        if fuel != 0 {
          RoundsKeepPlaces(answers, s, RunSteps(answers, s.steps, ran.1), fuel - 1, live, from, second, third, to);
        }
      }
    }
  }
}
