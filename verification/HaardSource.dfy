/** The statements the cleanups of a function come from, and what they mean.

    An expression is the calls it makes, the temporaries it builds and its `and`s and `or`s. What
    runs is told by a trace: a function called, an object built, an object ended. A call's answer
    may depend on everything before it, and so may where an object lies, so `answers` stands for any
    program around these statements. Every scope ends what it built, the last first, however it is
    left: this is the rule `FunctionLowerer` has to follow, said with no flag and no jump.
  */
module HaardSource {

  datatype Expr =
    | Call(function_: nat)
    | Temporary(object_: nat)
    | Both(first: Expr, second: Expr)
    | Logical(isAnd: bool, left: Expr, right: Expr)

  datatype Exprs = NoMore | More(first: Expr, rest: Exprs)

  /** `while true` and a `for` with no condition have no test. */
  datatype Stmt =
    | Evaluate(given: Expr)
    | Let(object_: nat, given: Expr)
    | BlockOf(body: Stmts)
    | IfElse(test: Expr, chosen: Stmts, hasElse: bool, otherwise: Stmts)
    | While(hasTest: bool, test: Expr, body: Stmts)
    | For(head: Stmts, hasTest: bool, test: Expr, steps: Exprs, body: Stmts)
    | Return(hasValue: bool, given: Expr)
    | BreakLoop
    | ContinueLoop

  datatype Stmts = Nothing | Then(first: Stmt, rest: Stmts)

  datatype Event = Called(function_: nat) | Built(object_: nat) | Destroyed(object_: nat)

  type Trace = seq<Event>

  /** What the program around these statements is asked for: a function's answer, an object's
      address. */
  datatype Asked = Answer(function_: nat) | Address(object_: nat)

  type Answers = (Asked, Trace) -> nat

  /** The last first. */
  function LastFirst(objects: seq<nat>): Trace {
    if objects == [] then [] else [Destroyed(objects[|objects| - 1])] + LastFirst(objects[..|objects| - 1])
  }

  /** An expression gives a value, and leaves the temporaries it built to its statement. */
  datatype Evaluated = Evaluated(value: nat, trace: Trace, built: seq<nat>)

  function Eval(answers: Answers, e: Expr, trace: Trace): Evaluated {
    match e
    case Call(function_) => Evaluated(answers(Answer(function_), trace), trace + [Called(function_)], [])
    case Temporary(object_) => Evaluated(answers(Address(object_), trace), trace + [Built(object_)], [object_])
    case Both(first, second) =>
      var one := Eval(answers, first, trace);
      var two := Eval(answers, second, one.trace);
      Evaluated(two.value, two.trace, one.built + two.built)
    case Logical(isAnd, left, right) =>
      var one := Eval(answers, left, trace);
      if (one.value != 0) != isAnd then one
      else
        var two := Eval(answers, right, one.trace);
        Evaluated(two.value, two.trace, one.built + two.built)
  }

  /** A statement of its own: its temporaries end when it does. */
  function EvalWhole(answers: Answers, e: Expr, trace: Trace): (r: (nat, Trace)) {
    var one := Eval(answers, e, trace);
    (one.value, one.trace + LastFirst(one.built))
  }

  /** How a statement is left. `Endless` is one whose loops went round more than `fuel` let
      them. */
  datatype Way = GoesOn | Breaks | Continues | Returns(value: nat) | Endless

  datatype Ran = Ran(way: Way, trace: Trace, locals: seq<nat>)

  /** Statements in a scope where `locals` are built already. */
  function Run(answers: Answers, body: Stmts, trace: Trace, locals: seq<nat>, fuel: nat): Ran
    decreases fuel, body, 1
  {
    match body
    case Nothing => Ran(GoesOn, trace, locals)
    case Then(first, rest) =>
      var one := RunOne(answers, first, trace, locals, fuel);
      if one.way == GoesOn then Run(answers, rest, one.trace, one.locals, fuel) else one
  }

  /** A block ends its locals, however it is left. */
  function RunBlock(answers: Answers, body: Stmts, trace: Trace, fuel: nat): (r: (Way, Trace))
    decreases fuel, body, 2
  {
    var ran := Run(answers, body, trace, [], fuel);
    (ran.way, ran.trace + LastFirst(ran.locals))
  }

  function RunOne(answers: Answers, s: Stmt, trace: Trace, locals: seq<nat>, fuel: nat): Ran
    decreases fuel, s, 1
  {
    match s
    case Evaluate(given) => Ran(GoesOn, EvalWhole(answers, given, trace).1, locals)
    case Let(object_, given) =>
      var one := Eval(answers, given, trace);
      Ran(GoesOn, one.trace + [Built(object_)] + LastFirst(one.built), locals + [object_])
    case BlockOf(body) =>
      var ran := RunBlock(answers, body, trace, fuel);
      Ran(ran.0, ran.1, locals)
    case IfElse(test, chosen, hasElse, otherwise) =>
      var (value, after) := EvalWhole(answers, test, trace);
      if value != 0 then var ran := RunBlock(answers, chosen, after, fuel); Ran(ran.0, ran.1, locals)
      else if hasElse then var ran := RunBlock(answers, otherwise, after, fuel); Ran(ran.0, ran.1, locals)
      else Ran(GoesOn, after, locals)
    case While(_, _, _) =>
      var ran := RunWhile(answers, s, trace, fuel);
      Ran(ran.0, ran.1, locals)
    case For(head, _, _, _, _) =>
      var begun := Run(answers, head, trace, [], fuel);
      if begun.way != GoesOn then Ran(begun.way, begun.trace + LastFirst(begun.locals), locals)
      else
        var ran := RunFor(answers, s, begun.trace, fuel);
        Ran(ran.0, ran.1 + LastFirst(begun.locals), locals)
    case Return(hasValue, given) =>
      if hasValue then var (value, after) := EvalWhole(answers, given, trace); Ran(Returns(value), after, locals)
      else Ran(Returns(0), trace, locals)
    case BreakLoop => Ran(Breaks, trace, locals)
    case ContinueLoop => Ran(Continues, trace, locals)
  }

  /** The test of a loop: whether its body runs, and the trace. */
  function Tested(answers: Answers, hasTest: bool, test: Expr, trace: Trace): (r: (bool, Trace)) {
    if hasTest then var (value, after) := EvalWhole(answers, test, trace); (value != 0, after) else (true, trace)
  }

  function RunWhile(answers: Answers, s: Stmt, trace: Trace, fuel: nat): (r: (Way, Trace))
    requires s.While?
    decreases fuel, s, 0
  {
    var (goesIn, after) := Tested(answers, s.hasTest, s.test, trace);
    if !goesIn then (GoesOn, after)
    else
      var ran := RunBlock(answers, s.body, after, fuel);
      match ran.0
      case Breaks => (GoesOn, ran.1)
      case Returns(_) => ran
      case Endless => ran
      case _ => if fuel == 0 then (Endless, ran.1) else RunWhile(answers, s, ran.1, fuel - 1)
  }

  function RunSteps(answers: Answers, steps: Exprs, trace: Trace): Trace {
    match steps
    case NoMore => trace
    case More(first, rest) => RunSteps(answers, rest, EvalWhole(answers, first, trace).1)
  }

  function RunFor(answers: Answers, s: Stmt, trace: Trace, fuel: nat): (r: (Way, Trace))
    requires s.For?
    decreases fuel, s, 0
  {
    var (goesIn, after) := Tested(answers, s.hasTest, s.test, trace);
    if !goesIn then (GoesOn, after)
    else
      var ran := RunBlock(answers, s.body, after, fuel);
      match ran.0
      case Breaks => (GoesOn, ran.1)
      case Returns(_) => ran
      case Endless => ran
      case _ =>
        var stepped := RunSteps(answers, s.steps, ran.1);
        if fuel == 0 then (Endless, stepped) else RunFor(answers, s, stepped, fuel - 1)
  }

  /** A `break` and a `continue` are inside a loop, and what a `for` declares is declared by
      `let`s and expressions. */
  predicate InLoops(body: Stmts, inLoop: bool) {
    match body
    case Nothing => true
    case Then(first, rest) => InLoopsOne(first, inLoop) && InLoops(rest, inLoop)
  }

  predicate InLoopsOne(s: Stmt, inLoop: bool) {
    match s
    case BlockOf(body) => InLoops(body, inLoop)
    case IfElse(_, chosen, hasElse, otherwise) => InLoops(chosen, inLoop) && (hasElse ==> InLoops(otherwise, inLoop))
    case While(_, _, body) => InLoops(body, true)
    case For(head, _, _, _, body) => Heads(head) && InLoops(body, true)
    case BreakLoop => inLoop
    case ContinueLoop => inLoop
    case _ => true
  }

  predicate Heads(head: Stmts) {
    match head
    case Nothing => true
    case Then(first, rest) => (first.Let? || first.Evaluate?) && Heads(rest)
  }

  // ----- What the meaning promises about objects -----

  function BuiltIn(trace: Trace): multiset<nat> {
    if trace == [] then multiset{}
    else if trace[0].Built? then multiset{trace[0].object_} + BuiltIn(trace[1..])
    else BuiltIn(trace[1..])
  }

  function DestroyedIn(trace: Trace): multiset<nat> {
    if trace == [] then multiset{}
    else if trace[0].Destroyed? then multiset{trace[0].object_} + DestroyedIn(trace[1..])
    else DestroyedIn(trace[1..])
  }

  /** No object is ended more often than it was built, at any moment. */
  ghost predicate NeverTooOften(trace: Trace) {
    forall k :: 0 <= k <= |trace| ==> DestroyedIn(trace[..k]) <= BuiltIn(trace[..k])
  }

  /** What is built and not ended are exactly `live`. */
  ghost predicate Leaves(trace: Trace, live: multiset<nat>) {
    NeverTooOften(trace) && BuiltIn(trace) == DestroyedIn(trace) + live
  }
}
