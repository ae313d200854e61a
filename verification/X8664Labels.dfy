/** Labels of a whole text. Where each is written once, and a jump of an instruction's lines goes to
    a label further on in them, the machine does with those lines, wherever they are in the text,
    what `Run` says.
  */
module X8664Labels {
  import opened X8664Machine

  /** The label lines of a text, in order. */
  function LabelsIn(text: Text): seq<Line> {
    if text == [] then []
    else (if text[0].Label? || text[0].BlockLabel? then [text[0]] else []) + LabelsIn(text[1..])
  }

  ghost predicate Once(labels: seq<Line>) {
    forall i, j {:trigger labels[i], labels[j]} :: 0 <= i < j < |labels| ==> labels[i] != labels[j]
  }

  /** Every jump to a label of the lines' own goes forward. */
  predicate Forward(text: Text) {
    text == [] ||
      (&& (text[0].Jump? || text[0].JumpIf? ==> Label(text[0].target) in LabelsIn(text[1..]))
       && Forward(text[1..]))
  }

  lemma {:induction false} LabelsOfBoth(first: Text, second: Text)
    ensures LabelsIn(first + second) == LabelsIn(first) + LabelsIn(second)
  {
    if first == [] {
      assert first + second == second;
    } else {
      var both, rest := first + second, first[1..];
      LabelsOfBoth(rest, second);
      assert both[0] == first[0] && both[1..] == rest + second;
      var own := if first[0].Label? || first[0].BlockLabel? then [first[0]] else [];
      assert LabelsIn(both) == own + LabelsIn(rest + second);
      assert own + (LabelsIn(rest) + LabelsIn(second)) == own + LabelsIn(rest) + LabelsIn(second);
    }
  }

  lemma {:induction false} ForwardBoth(first: Text, second: Text)
    requires Forward(first) && Forward(second)
    ensures Forward(first + second)
  {
    if first == [] {
      assert first + second == second;
    } else {
      ForwardBoth(first[1..], second);
      LabelsOfBoth(first[1..], second);
      assert (first + second)[1..] == first[1..] + second;
    }
  }

  lemma {:induction false} LabelIsThere(text: Text, label_: Line)
    requires label_ in LabelsIn(text)
    ensures label_ in text && (label_.Label? || label_.BlockLabel?)
  {
    if label_ !in LabelsIn(text[1..]) {
      assert label_ == text[0];
    } else {
      LabelIsThere(text[1..], label_);
    }
  }

  lemma {:induction false} LabelIsListed(text: Text, label_: Line)
    requires label_ in text && (label_.Label? || label_.BlockLabel?)
    ensures label_ in LabelsIn(text)
  {
    if text[0] != label_ {
      LabelIsListed(text[1..], label_);
    }
  }

  /** The first place after a label. */
  lemma {:induction false} PlaceIsAfter(text: Text, before: Text, label_: Line, rest: Text)
    requires text == before + ([label_] + rest) && label_ !in before
    ensures PlaceAfter(text, label_) == |before| + 1
    decreases |before|
  {
    if before != [] {
      assert text[1..] == before[1..] + ([label_] + rest);
      PlaceIsAfter(text[1..], before[1..], label_, rest);
    }
  }

  /** A label that is written once is found wherever it is. */
  lemma PlaceIsFound(text: Text, before: Text, label_: Line, rest: Text)
    requires text == before + ([label_] + rest) && (label_.Label? || label_.BlockLabel?) && Once(LabelsIn(text))
    ensures PlaceAfter(text, label_) == |before| + 1
  {
    LabelsOfBoth(before, [label_] + rest);
    assert ([label_] + rest)[1..] == rest;
    var labels := LabelsIn(before);
    assert LabelsIn(text)[|labels|] == label_;
    forall i | 0 <= i < |labels|
      ensures labels[i] != label_
    {
      assert LabelsIn(text)[i] == labels[i];
    }
    if label_ in before {
      LabelIsListed(before, label_);
    }
    PlaceIsAfter(text, before, label_, rest);
  }

  lemma {:induction false} Splits(text: Text, name: nat) returns (before: Text)
    requires Label(name) in LabelsIn(text)
    ensures text == before + ([Label(name)] + After(text, name))
  {
    if text[0] == Label(name) {
      before := [];
    } else {
      before := Splits(text[1..], name);
      assert text == [text[0]] + before + ([Label(name)] + After(text, name));
      before := [text[0]] + before;
    }
  }

  lemma {:induction false} ForwardAfter(text: Text, name: nat)
    requires Forward(text)
    ensures Forward(After(text, name))
  {
    if text != [] && text[0] != Label(name) {
      ForwardAfter(text[1..], name);
    }
  }

  /** Where the machine is when the lines are done. */
  ghost predicate Arrives(text: Text, m: Machine, o: Outcome, next: nat) {
    match o
    case Goes(t) => m == Running(next, t)
    case Leaves(block, t) => m == Running(PlaceAfter(text, BlockLabel(block)), t)
    case Returns(t) => m == Finished(Returned(t.rax))
    case Aborts => m == Finished(Aborted)
    case Faults => m == Finished(Faulted)
  }

  /** The whole text is what was before, these lines and what follows. */
  ghost predicate IsAt(text: Text, pc: nat, lines: Text, next: nat) {
    pc + |lines| == next <= |text| && text[pc..next] == lines
  }

  /** A jump within the lines goes to where `Run` goes on. */
  lemma JumpsInPlace(text: Text, pc: nat, line: Line, rest: Text, next: nat, name: nat) returns (at: nat)
    requires Once(LabelsIn(text)) && Forward(rest) && IsAt(text, pc + 1, rest, next) && Label(name) in LabelsIn(rest)
    ensures at == PlaceAfter(text, Label(name)) && IsAt(text, at, After(rest, name), next)
    ensures Forward(After(rest, name)) && |After(rest, name)| <= |rest|
  {
    hide LabelsIn, Once, After;
    var before := Splits(rest, name);
    var after := After(rest, name);
    var wholeBefore, wholeAfter := text[..pc + 1] + before, after + text[next..];
    assert text == text[..pc + 1] + (rest + text[next..]);
    assert text == wholeBefore + ([Label(name)] + wholeAfter);
    PlaceIsFound(text, wholeBefore, Label(name), wholeAfter);
    ForwardAfter(rest, name);
    at := |wholeBefore| + 1;
    assert text[at..next] == after;
  }

  /** Wherever the lines are, the machine does with them what `Run` says. */
  lemma {:induction false} RunsInPlace(text: Text, pc: nat, lines: Text, next: nat, s: State) returns (n: nat)
    requires Once(LabelsIn(text)) && Forward(lines) && IsAt(text, pc, lines, next)
    ensures Arrives(text, Steps(text, Running(pc, s), n), Run(lines, s), next)
    ensures lines != [] ==> n > 0
    decreases |lines|
  {
    hide Straight, Holds, Once, After, LabelsIn, PlaceAfter;
    n := 0;
    if lines != [] {
      var line, rest := lines[0], lines[1..];
      assert text[pc] == line && text[pc + 1..next] == rest;
      var m := Step(text, Running(pc, s));
      if line.Jump? || (line.JumpIf? && Holds(line.condition, s)) {
        var at := JumpsInPlace(text, pc, line, rest, next, line.target);
        n := RunsInPlace(text, at, After(rest, line.target), next, s);
      } else if m.Running? && !line.JumpToBlock? && !line.JumpToBlockIf? {
        n := RunsInPlace(text, pc + 1, rest, next, m.s);
      } else if line.JumpToBlockIf? && !Holds(line.condition, s) {
        n := RunsInPlace(text, pc + 1, rest, next, s);
      }
      n := n + 1;
    }
  }

  // ----- The labels of a text put together -----

  /** The labels of a text, whose jumps to them go forward. */
  ghost predicate Has(text: Text, labels: seq<Line>) {
    LabelsIn(text) == labels && Forward(text)
  }

  lemma HasBoth(first: Text, second: Text, labels: seq<Line>, more: seq<Line>)
    requires Has(first, labels) && Has(second, more)
    ensures Has(first + second, labels + more)
  {
    LabelsOfBoth(first, second);
    ForwardBoth(first, second);
  }

  lemma {:induction false} HasNone(text: Text)
    requires forall line <- text :: !line.Label? && !line.BlockLabel? && !line.Jump? && !line.JumpIf?
    ensures Has(text, [])
  {
    if text != [] {
      HasNone(text[1..]);
    }
  }

  lemma HasJump(line: Line, rest: Text, labels: seq<Line>)
    requires Has(rest, labels) && (line.Jump? || line.JumpIf?) && Label(line.target) in labels
    ensures Has([line] + rest, labels)
  {
    assert ([line] + rest)[1..] == rest;
  }

  lemma HasLabel(name: nat, rest: Text, labels: seq<Line>)
    requires Has(rest, labels)
    ensures Has([Label(name)] + rest, [Label(name)] + labels)
  {
    assert ([Label(name)] + rest)[1..] == rest;
  }
}
