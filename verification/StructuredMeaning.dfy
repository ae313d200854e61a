/** The structured form's meaning, as the flattener's header comment gives it: after a `block`
    and on its `break` comes what follows it, an `if` runs the side its condition names, and
    falling off the end of a `loop`, or its `continue`, goes round again. A loop stops the run
    at the turn past its bound.

    `fuel` bounds how often loops go round on the way down: with too little of it a run is
    `Unfinished` where it has come to, and a run that never ends is unfinished whatever the fuel.
  */
module StructuredMeaning {
  import opened Ir
  import opened Interpreter

  datatype Outcome<S> =
    | Fall(s: S)
    | Broke(region: nat, s: S)
    | Continued(region: nat, s: S)
    | Ended(result: Result<S>)
    | Unfinished(s: S)

  function Exec<S>(m: Meaning<S>, code: Code, s: S, fuel: nat): Outcome<S>
    decreases fuel, code, 2
  {
    if code == End then Fall(s)
    else
      var first := ExecHead(m, code, s, fuel);
      if first.Fall? then Exec(m, code.next, first.s, fuel) else first
  }

  function ExecHead<S>(m: Meaning<S>, code: Code, s: S, fuel: nat): Outcome<S>
    requires code != End
    decreases fuel, code, 1
  {
    match code
    case Plain(inst, _) =>
      if !IsCommon(inst) then Unfinished(s)
      else (match Perform(m, inst, s) case Goes(s') => Fall(s') case Ends(result) => Ended(result))
    case Block(region, body, _, _) => AfterRegion(region, Exec(m, body, s, fuel))
    case If(region, condition, chosen, hasElse, otherwise, _, _) =>
      if m.value(condition, s) != 0 then AfterRegion(region, Exec(m, chosen, s, fuel))
      else if hasElse then AfterRegion(region, Exec(m, otherwise, s, fuel))
      else Fall(s)
    case Loop(region, bound, body, _, _) => ExecLoop(m, region, bound, body, 0, s, fuel)
    case Break(region, _, _) => Broke(region, s)
    case Continue(region, _, _) => Continued(region, s)
  }

  /** A `break` out of a region comes to what follows it. */
  function AfterRegion<S>(region: nat, outcome: Outcome<S>): Outcome<S> {
    if outcome.Broke? && outcome.region == region then Fall(outcome.s) else outcome
  }

  predicate GoesRound<S>(region: nat, outcome: Outcome<S>) {
    outcome.Fall? || (outcome.Continued? && outcome.region == region)
  }

  /** A loop that has gone round `turns` times. */
  function ExecLoop<S>(m: Meaning<S>, region: nat, bound: U32, body: Code, turns: nat, s: S, fuel: nat): Outcome<S>
    decreases fuel, body, 3
  {
    var once := Exec(m, body, s, fuel);
    if GoesRound(region, once) then
      if bound != NO_BOUND && turns + 1 > bound then Ended(Exceeded(bound, once.s))
      else if fuel == 0 then Unfinished(once.s)
      else ExecLoop(m, region, bound, body, turns + 1, once.s, fuel - 1)
    else AfterRegion(region, once)
  }
}
