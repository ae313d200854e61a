/** What is written for a tree is read by C++ as that tree: first as tokens, each level of the
    grammar taking exactly the operands that were written for it.
  */
module PrinterReads {
  import opened Wrappers
  import opened CppGrammar
  import opened OperatorPrinter

  type Types = set<string>

  function Marks(mark: string): seq<Token> {
    [Mark(mark)]
  }

  function TokensOf(types: Types, e: Tree): (tokens: seq<Token>)
    requires Writable(types, e)
    ensures tokens != []
    decreases e, 0
  {
    match e
    case Name(text) => [Word(text)]
    case Parens(inner) => Wrapped(TokensOf(types, inner))
    case Call(callee, arguments) => OperandTokens(types, callee, 2) + Marks("(") + ArgumentsTokens(types, arguments) + Marks(")")
    case Index(left, index) => OperandTokens(types, left, 2) + Marks("[") + TokensOf(types, index) + Marks("]")
    case Member(left, mark, name) => OperandTokens(types, left, 2) + Marks(mark) + [Word(name)]
    case Postfix(mark, operand) => OperandTokens(types, operand, 2) + Marks(mark)
    case Prefix(mark, operand) => Marks(mark) + OperandTokens(types, operand, PrefixLimit(mark, operand))
    case Cast(to, inner) => Marks("(") + [Word(to)] + Marks(")") + Wrapped(TokensOf(types, inner))
    case Binary(mark, left, right) =>
      OperandTokens(types, left, LeftLimit(mark)) + Marks(mark) + OperandTokens(types, right, RightLimit(mark))
  }

  function Wrapped(tokens: seq<Token>): seq<Token> {
    Marks("(") + tokens + Marks(")")
  }

  function OperandTokens(types: Types, e: Tree, limit: nat): (tokens: seq<Token>)
    requires Writable(types, e)
    ensures tokens != []
    decreases e, 1
  {
    if PrecedenceOf(e) <= limit then TokensOf(types, e) else Wrapped(TokensOf(types, e))
  }

  function ArgumentsTokens(types: Types, trees: Trees): seq<Token>
    requires AllWritable(types, trees)
    decreases trees, 0
  {
    match trees
    case NoMore => []
    case More(first, NoMore) => TokensOf(types, first)
    case More(first, rest) => TokensOf(types, first) + Marks(",") + ArgumentsTokens(types, rest)
  }

  // ----- Two tables -----

  /** The emitter's table of the operators is the grammar's. */
  lemma TablesAgree(mark: string, level: nat)
    requires 4 <= level <= ASSIGNMENT
    ensures mark in OperatorsOf(level) <==> LevelOf(mark) == level
  {
    if mark in OperatorsOf(level) {
      InGrammarsTable(mark, level);
    } else if LevelOf(mark) == level {
      InEmittersTable(mark);
    }
  }

  lemma InGrammarsTable(mark: string, level: nat)
    requires mark in OperatorsOf(level)
    ensures LevelOf(mark) == level
  {
    var i :| 0 <= i < |OperatorsOf(level)| && OperatorsOf(level)[i] == mark;
    if level < 10 {
      assert LevelOf(OperatorsOf(level)[i]) == level;
    } else if level < 16 {
      assert LevelOf(OperatorsOf(level)[i]) == level;
    }
  }

  lemma InEmittersTable(mark: string)
    requires LevelOf(mark) > 0
    ensures mark in OperatorsOf(LevelOf(mark))
  {
    var level := LevelOf(mark);
    if level == 16 {
      assert mark in OperatorsOf(16);
    } else if level < 10 {
      assert mark in OperatorsOf(level);
    }
  }

  /** What is looser, or no operator, is none of the level's. */
  lemma EndsLevel(rest: seq<Token>, level: nat)
    requires 4 <= level <= ASSIGNMENT && NoTighter(rest, level + 1) && rest != [] && rest[0].Mark?
    ensures rest[0].text !in OperatorsOf(level)
  {
    hide LevelOf, OperatorsOf;
    TablesAgree(rest[0].text, level);
  }

  // ----- What may follow -----

  /** Nothing that goes on a postfix expression. */
  predicate NoPostfix(rest: seq<Token>) {
    rest == [] || rest[0].Word? || !(IsStep(rest[0].text) || rest[0].text in ["(", "[", ".", "->"])
  }

  /** Nor an operator tighter than this level. */
  predicate NoTighter(rest: seq<Token>, level: nat) {
    NoPostfix(rest) && (rest != [] && rest[0].Mark? ==> LevelOf(rest[0].text) == 0 || LevelOf(rest[0].text) >= level)
  }

  /** What a level does with what it read first. */
  function RestOf(types: Types, level: nat, left: Tree, rest: seq<Token>): Read<Tree>
    requires 3 <= level < ASSIGNMENT
  {
    if level == 3 then Some((left, rest)) else BinaryRest(types, level, left, rest)
  }

  lemma {:induction false} Up(types: Types, from: nat, level: nat, tokens: seq<Token>, left: Tree, rest: seq<Token>)
    requires 3 <= from <= level < ASSIGNMENT && NoTighter(rest, level)
    requires ReadLevel(types, from, tokens) == RestOf(types, from, left, rest)
    ensures ReadLevel(types, level, tokens) == RestOf(types, level, left, rest)
    decreases level
  {
    hide LevelOf, OperatorsOf, ReadUnary;
    if from < level {
      Up(types, from, level - 1, tokens, left, rest) by { Looser(rest, level); }
      NothingMore(types, level - 1, left, rest);
      assert RestOf(types, level - 1, left, rest) == Some((left, rest));
    }
  }

  /** Through the levels of the operators, to an assignment's. */
  lemma AllTheWayUp(types: Types, from: nat, tokens: seq<Token>, left: Tree, rest: seq<Token>)
    requires 3 <= from < ASSIGNMENT && NoTighter(rest, ASSIGNMENT + 1)
    requires ReadLevel(types, from, tokens) == RestOf(types, from, left, rest)
    ensures ReadLevel(types, ASSIGNMENT, tokens) == Some((left, rest))
  {
    hide LevelOf, OperatorsOf, ReadUnary;
    Looser(rest, ASSIGNMENT + 1);
    Up(types, from, ASSIGNMENT - 1, tokens, left, rest);
    NothingMore(types, ASSIGNMENT - 1, left, rest);
    if rest != [] && rest[0].Mark? {
      EndsLevel(rest, ASSIGNMENT);
    }
  }

  // ----- First tokens -----

  /** A type comes only after a parenthesis. */
  lemma {:induction false} FirstIsNoType(types: Types, e: Tree)
    requires Writable(types, e)
    ensures TokensOf(types, e)[0].Word? ==> TokensOf(types, e)[0].text !in types
    ensures PrecedenceOf(e) <= 2 ==> !StartsUnary(types, TokensOf(types, e))
    decreases e, 0
  {
    hide OperandTokens, LevelOf, ArgumentsTokens, GluesTo;
    match e
    case Name(_) =>
    case Parens(inner) => WrappedStarts(types, inner);
    case Call(callee, _) => OperandStarts(types, callee, 2);
    case Index(left, _) => OperandStarts(types, left, 2);
    case Member(left, _, _) => OperandStarts(types, left, 2);
    case Postfix(_, operand) => OperandStarts(types, operand, 2);
    case Prefix(_, _) =>
    case Cast(_, _) =>
    case Binary(mark, left, _) => OperandStarts(types, left, LeftLimit(mark));
  }

  predicate StartsUnary(types: Types, tokens: seq<Token>) {
    IsCast(types, tokens) || (tokens != [] && tokens[0].Mark? && IsPrefix(tokens[0].text))
  }

  lemma {:induction false} WrappedStarts(types: Types, e: Tree)
    requires Writable(types, e)
    ensures forall rest {:trigger Wrapped(TokensOf(types, e)) + rest} :: !StartsUnary(types, Wrapped(TokensOf(types, e)) + rest)
    ensures !StartsUnary(types, Wrapped(TokensOf(types, e))) && Wrapped(TokensOf(types, e))[0] == Mark("(")
    decreases e, 1
  {
    FirstIsNoType(types, e);
    assert Wrapped(TokensOf(types, e))[1] == TokensOf(types, e)[0];
  }

  lemma {:induction false} OperandStarts(types: Types, e: Tree, limit: nat)
    requires Writable(types, e)
    ensures var tokens := OperandTokens(types, e, limit);
            && (tokens[0].Word? ==> tokens[0].text !in types)
            && (limit <= 2 ==> forall rest {:trigger tokens + rest} :: !StartsUnary(types, tokens + rest))
    decreases e, 2
  {
    FirstIsNoType(types, e);
    WrappedStarts(types, e);
  }

  // ----- Every tree is read back -----

  /** A whole expression: an argument, an index, what parentheses hold. */
  lemma {:induction false} ReadsExpression(types: Types, e: Tree, rest: seq<Token>)
    requires Writable(types, e) && NoTighter(rest, ASSIGNMENT + 1)
    ensures ReadLevel(types, ASSIGNMENT, TokensOf(types, e) + rest) == Some((Stripped(e), rest))
    decreases e, 20
  {
    if PrecedenceOf(e) == ASSIGNMENT {
      ReadsAssignment(types, e, rest);
    } else {
      var level := if PrecedenceOf(e) < 3 then 3 else PrecedenceOf(e);
      ReadsAt(types, e, level, rest);
      AllTheWayUp(types, level, TokensOf(types, e) + rest, Stripped(e), rest);
    }
  }

  lemma {:induction false} ReadsAssignment(types: Types, e: Tree, rest: seq<Token>)
    requires Writable(types, e) && PrecedenceOf(e) == ASSIGNMENT && NoTighter(rest, ASSIGNMENT + 1)
    ensures ReadLevel(types, ASSIGNMENT, TokensOf(types, e) + rest) == Some((Stripped(e), rest))
    decreases e, 3
  {
    hide TokensOf, OperandTokens, LevelOf, OperatorsOf, NoTighter, RestOf;
    TablesAgree(e.mark, ASSIGNMENT);
    var left, right := OperandTokens(types, e.left, ASSIGNMENT - 1), OperandTokens(types, e.right, ASSIGNMENT);
    var after := right + rest;
    BinaryTokens(types, e, rest);
    assert NoTighter(Marks(e.mark) + after, ASSIGNMENT - 1) by { MarksFollow(e.mark, after); }
    ReadsOperand(types, e.left, ASSIGNMENT - 1, Marks(e.mark) + after);
    assert RestOf(types, ASSIGNMENT - 1, Stripped(e.left), Marks(e.mark) + after) == Some((Stripped(e.left), Marks(e.mark) + after)) by {
      NothingMore(types, ASSIGNMENT - 1, Stripped(e.left), Marks(e.mark) + after) by { MarksFollow(e.mark, after); }
    }
    assert (Marks(e.mark) + after)[1..] == after;
    RightReads(types, e.right, rest);
  }

  lemma {:induction false} RightReads(types: Types, e: Tree, rest: seq<Token>)
    requires Writable(types, e) && NoTighter(rest, ASSIGNMENT + 1)
    ensures ReadLevel(types, ASSIGNMENT, OperandTokens(types, e, ASSIGNMENT) + rest) == Some((Stripped(e), rest))
    decreases e, 21
  {
    assert PrecedenceOf(e) <= ASSIGNMENT;
    ReadsExpression(types, e, rest);
  }

  lemma BinaryTokens(types: Types, e: Tree, rest: seq<Token>)
    requires Writable(types, e) && e.Binary?
    ensures TokensOf(types, e) + rest ==
            OperandTokens(types, e.left, LeftLimit(e.mark))
            + (Marks(e.mark) + (OperandTokens(types, e.right, RightLimit(e.mark)) + rest))
  {
  }

  lemma CloserFollows(mark: string, after: seq<Token>)
    requires mark == ")" || mark == "]" || mark == ","
    ensures NoTighter(Marks(mark) + after, ASSIGNMENT + 1) && (Marks(mark) + after)[1..] == after
  {
  }

  lemma MarksFollow(mark: string, after: seq<Token>)
    requires LevelOf(mark) > 0
    ensures NoTighter(Marks(mark) + after, LevelOf(mark))
    ensures forall level :: 0 <= level < LevelOf(mark) ==> NoTighter(Marks(mark) + after, level)
  {
  }

  lemma NothingMore(types: Types, level: nat, left: Tree, rest: seq<Token>)
    requires 3 <= level < ASSIGNMENT && NoTighter(rest, level + 1)
    ensures RestOf(types, level, left, rest) == Some((left, rest))
  {
    hide LevelOf, OperatorsOf;
    if level > 3 && rest != [] && rest[0].Mark? {
      EndsLevel(rest, level);
    }
  }

  /** At its level or any above it. */
  lemma {:induction false} ReadsAt(types: Types, e: Tree, level: nat, rest: seq<Token>)
    requires Writable(types, e) && PrecedenceOf(e) <= level && 3 <= level < ASSIGNMENT && NoTighter(rest, level)
    ensures ReadLevel(types, level, TokensOf(types, e) + rest) == RestOf(types, level, Stripped(e), rest)
    decreases e, 19, level
  {
    if e.Binary? {
      if LevelOf(e.mark) == level {
        ReadsBinary(types, e, rest);
      } else {
        ReadsAt(types, e, LevelOf(e.mark), rest);
        Up(types, LevelOf(e.mark), level, TokensOf(types, e) + rest, Stripped(e), rest);
      }
    } else {
      ReadsUnary(types, e, rest);
      Up(types, 3, level, TokensOf(types, e) + rest, Stripped(e), rest);
    }
  }

  lemma {:induction false} ReadsBinary(types: Types, e: Tree, rest: seq<Token>)
    requires Writable(types, e) && e.Binary? && LevelOf(e.mark) < ASSIGNMENT && NoTighter(rest, LevelOf(e.mark))
    ensures ReadLevel(types, LevelOf(e.mark), TokensOf(types, e) + rest) == RestOf(types, LevelOf(e.mark), Stripped(e), rest)
    decreases e, 3
  {
    hide TokensOf, OperandTokens, LevelOf, OperatorsOf, NoTighter;
    var level := LevelOf(e.mark);
    TablesAgree(e.mark, level);
    var after := OperandTokens(types, e.right, level - 1) + rest;
    BinaryTokens(types, e, rest);
    MarksFollow(e.mark, after);
    ReadsOperand(types, e.left, level, Marks(e.mark) + after);
    assert (Marks(e.mark) + after)[1..] == after;
    assert NoTighter(rest, level - 1) by { Looser(rest, level); }
    ReadsOperand(types, e.right, level - 1, rest);
    NothingMore(types, level - 1, Stripped(e.right), rest);
  }

  lemma Looser(rest: seq<Token>, level: nat)
    requires NoTighter(rest, level)
    ensures forall tighter :: 0 <= tighter <= level ==> NoTighter(rest, tighter)
  {
  }

  /** Wrapped where it is looser than the level. */
  lemma {:induction false} ReadsOperand(types: Types, e: Tree, level: nat, rest: seq<Token>)
    requires Writable(types, e) && 3 <= level < ASSIGNMENT && NoTighter(rest, level)
    ensures ReadLevel(types, level, OperandTokens(types, e, level) + rest) == RestOf(types, level, Stripped(e), rest)
    decreases e, 22
  {
    if PrecedenceOf(e) <= level {
      ReadsAt(types, e, level, rest);
    } else {
      ReadsWrapped(types, e, rest);
      WrappedStarts(types, e);
      assert PostfixRest(types, Stripped(e), rest) == Some((Stripped(e), rest));
      Up(types, 3, level, Wrapped(TokensOf(types, e)) + rest, Stripped(e), rest);
    }
  }

  lemma {:induction false} ReadsWrapped(types: Types, e: Tree, rest: seq<Token>)
    requires Writable(types, e)
    ensures ReadPostfix(types, Wrapped(TokensOf(types, e)) + rest) == PostfixRest(types, Stripped(e), rest)
    decreases e, 21
  {
    var inner := TokensOf(types, e);
    var after := Marks(")") + rest;
    ReadsExpression(types, e, after);
    assert Wrapped(inner) + rest == Marks("(") + (inner + after);
    assert (Marks("(") + (inner + after))[1..] == inner + after && after[1..] == rest;
  }

  /** What a unary operator or a cast stands before, and what stands before none. */
  lemma {:induction false} ReadsUnary(types: Types, e: Tree, rest: seq<Token>)
    requires Writable(types, e) && !e.Binary? && NoPostfix(rest)
    ensures ReadUnary(types, TokensOf(types, e) + rest) == Some((Stripped(e), rest))
    decreases e, 3
  {
    if e.Prefix? {
      var limit := PrefixLimit(e.mark, e.operand);
      var inner := OperandTokens(types, e.operand, limit);
      assert TokensOf(types, e) + rest == Marks(e.mark) + (inner + rest);
      assert (Marks(e.mark) + (inner + rest))[1..] == inner + rest;
      UnaryOperand(types, e.operand, limit, rest);
    } else if e.Cast? {
      ReadsCast(types, e, rest);
    } else {
      ReadsPostfix(types, e, rest);
      OperandStarts(types, e, 2);
    }
  }

  lemma {:induction false} ReadsCast(types: Types, e: Tree, rest: seq<Token>)
    requires Writable(types, e) && e.Cast? && NoPostfix(rest)
    ensures ReadUnary(types, TokensOf(types, e) + rest) == Some((Stripped(e), rest))
    decreases e, 2
  {
    var wrapped := Wrapped(TokensOf(types, e.inner));
    var all := TokensOf(types, e) + rest;
    assert all == Marks("(") + [Word(e.to)] + Marks(")") + (wrapped + rest);
    assert all[3..] == wrapped + rest && IsCast(types, all);
    ReadsWrapped(types, e.inner, rest);
    WrappedStarts(types, e.inner);
  }

  lemma {:induction false} UnaryOperand(types: Types, e: Tree, limit: nat, rest: seq<Token>)
    requires Writable(types, e) && 2 <= limit <= 3 && NoPostfix(rest)
    ensures ReadUnary(types, OperandTokens(types, e, limit) + rest) == Some((Stripped(e), rest))
    decreases e, 22
  {
    if PrecedenceOf(e) <= limit {
      ReadsUnary(types, e, rest);
    } else {
      ReadsWrapped(types, e, rest);
      WrappedStarts(types, e);
    }
  }

  lemma {:induction false} PostfixOperand(types: Types, e: Tree, rest: seq<Token>)
    requires Writable(types, e)
    ensures ReadPostfix(types, OperandTokens(types, e, 2) + rest) == PostfixRest(types, Stripped(e), rest)
    decreases e, 22
  {
    if PrecedenceOf(e) <= 2 {
      ReadsPostfix(types, e, rest);
    } else {
      ReadsWrapped(types, e, rest);
    }
  }

  /** What calls, indices, members and steps are written after. */
  lemma {:induction false} ReadsPostfix(types: Types, e: Tree, rest: seq<Token>)
    requires Writable(types, e) && PrecedenceOf(e) <= 2
    ensures ReadPostfix(types, TokensOf(types, e) + rest) == PostfixRest(types, Stripped(e), rest)
    decreases e, 1
  {
    hide ReadLevel, OperandTokens, LevelOf, ArgumentsTokens, Wrapped;
    match e
    case Name(text) => assert ([Word(text)] + rest)[1..] == rest;
    case Parens(inner) => ReadsWrapped(types, inner, rest);
    case Call(_, _) => ReadsCall(types, e, rest);
    case Index(_, _) => ReadsIndex(types, e, rest);
    case Member(left, mark, name) =>
      var after := Marks(mark) + [Word(name)] + rest;
      assert TokensOf(types, e) + rest == OperandTokens(types, left, 2) + after;
      PostfixOperand(types, left, after);
      assert after[2..] == rest;
    case Postfix(mark, operand) =>
      var after := Marks(mark) + rest;
      assert TokensOf(types, e) + rest == OperandTokens(types, operand, 2) + after;
      PostfixOperand(types, operand, after);
      assert after[1..] == rest;
  }

  lemma {:induction false} ReadsIndex(types: Types, e: Tree, rest: seq<Token>)
    requires Writable(types, e) && e.Index?
    ensures ReadPostfix(types, TokensOf(types, e) + rest) == PostfixRest(types, Stripped(e), rest)
    decreases e, 0
  {
    hide ReadPostfix, ReadLevel, ReadPrimary, OperandTokens, LevelOf;
    var index, close := TokensOf(types, e.index), Marks("]") + rest;
    var after := Marks("[") + (index + close);
    assert TokensOf(types, e) + rest == OperandTokens(types, e.left, 2) + after;
    PostfixOperand(types, e.left, after);
    assert after[1..] == index + close && close[1..] == rest;
    CloserFollows("]", rest);
    ReadsExpression(types, e.index, close);
  }

  lemma {:induction false} ReadsCall(types: Types, e: Tree, rest: seq<Token>)
    requires Writable(types, e) && e.Call?
    ensures ReadPostfix(types, TokensOf(types, e) + rest) == PostfixRest(types, Stripped(e), rest)
    decreases e, 0
  {
    hide ReadPostfix, ReadLevel, ReadPrimary, OperandTokens, LevelOf;
    var arguments, close := ArgumentsTokens(types, e.arguments), Marks(")") + rest;
    var after := Marks("(") + (arguments + close);
    assert TokensOf(types, e) + rest == OperandTokens(types, e.callee, 2) + after;
    PostfixOperand(types, e.callee, after);
    assert after[1..] == arguments + close;
    if e.arguments == NoMore {
      assert after[2..] == rest;
    } else {
      ArgumentsStart(types, e.arguments);
      ReadsArguments(types, e.arguments, rest);
    }
  }

  lemma ArgumentsStart(types: Types, trees: Trees)
    requires AllWritable(types, trees) && trees.More?
    ensures ArgumentsTokens(types, trees) != [] && !StartsWith(ArgumentsTokens(types, trees), ")")
  {
    FirstIsNoClose(types, trees.first);
    assert ArgumentsTokens(types, trees)[0] == TokensOf(types, trees.first)[0];
  }

  lemma {:induction false} FirstIsNoClose(types: Types, e: Tree)
    requires Writable(types, e)
    ensures TokensOf(types, e)[0] != Mark(")")
    decreases e
  {
    match e
    case Name(_) =>
    case Parens(_) =>
    case Call(callee, _) => FirstIsNoClose(types, callee);
    case Index(left, _) => FirstIsNoClose(types, left);
    case Member(left, _, _) => FirstIsNoClose(types, left);
    case Postfix(_, operand) => FirstIsNoClose(types, operand);
    case Prefix(_, _) =>
    case Cast(_, _) =>
    case Binary(_, left, _) => FirstIsNoClose(types, left);
  }

  lemma {:induction false} ReadsArguments(types: Types, trees: Trees, rest: seq<Token>)
    requires AllWritable(types, trees) && trees.More?
    ensures ReadArguments(types, ArgumentsTokens(types, trees) + (Marks(")") + rest)) == Some((AllStripped(trees), rest))
    decreases trees
  {
    hide ReadLevel, TokensOf, LevelOf;
    var first, close := TokensOf(types, trees.first), Marks(")") + rest;
    if trees.rest == NoMore {
      CloserFollows(")", rest);
      ReadsExpression(types, trees.first, close);
    } else {
      var others := ArgumentsTokens(types, trees.rest);
      var after := Marks(",") + (others + close);
      assert ArgumentsTokens(types, trees) + close == first + after;
      CloserFollows(",", others + close);
      ReadsExpression(types, trees.first, after);
      ReadsArguments(types, trees.rest, rest);
    }
  }
}
