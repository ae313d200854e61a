/** How the emitter writes a tree of operators as C++: the operands wrapped in the parentheses the
    tree has no node for, since C++ groups its own way.
  */
module OperatorPrinter {
  import opened CppGrammar

  /** The emitter's own table of the binary operators, tighter first; 0 for what is none. */
  function LevelOf(mark: string): (level: nat)
    ensures level == 0 || 5 <= level <= ASSIGNMENT
  {
    if mark == "*" || mark == "/" || mark == "%" then 5
    else if mark == "+" || mark == "-" then 6
    else if mark == "<<" || mark == ">>" then 7
    else if mark == "<" || mark == ">" || mark == "<=" || mark == ">=" then 9
    else if mark == "==" || mark == "!=" then 10
    else if mark == "&" then 11
    else if mark == "^" then 12
    else if mark == "|" then 13
    else if mark == "&&" then 14
    else if mark == "||" then 15
    else if mark == "=" || mark == "+=" || mark == "-=" || mark == "*=" || mark == "/=" || mark == "%=" || mark == "&="
            || mark == "|=" || mark == "^=" || mark == "<<=" || mark == ">>=" then 16
    else 0
  }

  /** The level what is written for a tree is read at. */
  function PrecedenceOf(e: Tree): nat {
    match e
    case Name(_) => 1
    case Parens(_) => 1
    case Call(_, _) => 2
    case Index(_, _) => 2
    case Member(_, _, _) => 2
    case Postfix(_, _) => 2
    case Prefix(_, _) => 3
    case Cast(_, _) => 3
    case Binary(mark, _, _) => LevelOf(mark)
  }

  /** A prefix operator before another whose text starts with the same character. */
  predicate GluesTo(mark: char, operand: Tree) {
    && mark in "-+&" && operand.Prefix?
    && (((operand.mark == "-" || operand.mark == "--") && mark == '-')
        || ((operand.mark == "+" || operand.mark == "++") && mark == '+')
        || (operand.mark == "&" && mark == '&'))
  }

  function PrefixLimit(mark: string, operand: Tree): nat
    requires mark != []
  {
    if GluesTo(mark[0], operand) then 2 else 3
  }

  predicate IsWord(text: string) {
    text != [] && forall c <- text :: IsWordChar(c)
  }

  predicate IsNumber(e: Tree) {
    e.Name? && e.text != [] && IsDigit(e.text[0])
  }

  /** Names are names and types types, marks are what they say, and a bare number has no member
      and is not stepped. */
  predicate Writable(types: set<string>, e: Tree) {
    match e
    case Name(text) => IsWord(text) && text !in types
    case Parens(inner) => Writable(types, inner)
    case Call(callee, arguments) => Writable(types, callee) && AllWritable(types, arguments)
    case Index(left, index) => Writable(types, left) && Writable(types, index)
    case Member(left, mark, name) =>
      Writable(types, left) && !IsNumber(left) && (mark == "." || mark == "->") && IsWord(name) && !IsDigit(name[0])
    case Postfix(mark, operand) => Writable(types, operand) && !IsNumber(operand) && IsStep(mark)
    case Prefix(mark, operand) => Writable(types, operand) && IsPrefix(mark)
    case Cast(to, inner) => Writable(types, inner) && IsWord(to) && !IsDigit(to[0]) && to in types
    case Binary(mark, left, right) => Writable(types, left) && Writable(types, right) && LevelOf(mark) > 0
  }

  predicate AllWritable(types: set<string>, trees: Trees) {
    trees.More? ==> Writable(types, trees.first) && AllWritable(types, trees.rest)
  }

  /** An assignment may hold another on its right unwrapped, every other operator one of its own
      level on its left. */
  function LeftLimit(mark: string): nat {
    if LevelOf(mark) == ASSIGNMENT then ASSIGNMENT - 1 else LevelOf(mark)
  }

  function RightLimit(mark: string): nat
    requires LevelOf(mark) > 0
  {
    if LevelOf(mark) == ASSIGNMENT then ASSIGNMENT else LevelOf(mark) - 1
  }

  function TextOf(types: set<string>, e: Tree): string
    requires Writable(types, e)
    decreases e, 0
  {
    match e
    case Name(text) => text
    case Parens(inner) => "(" + TextOf(types, inner) + ")"
    case Call(callee, arguments) => OperandText(types, callee, 2) + "(" + ArgumentsText(types, arguments) + ")"
    case Index(left, index) => OperandText(types, left, 2) + "[" + TextOf(types, index) + "]"
    case Member(left, mark, name) => OperandText(types, left, 2) + mark + name
    case Postfix(mark, operand) => OperandText(types, operand, 2) + mark
    case Prefix(mark, operand) => mark + OperandText(types, operand, PrefixLimit(mark, operand))
    case Cast(to, inner) => "(" + to + ")(" + TextOf(types, inner) + ")"
    case Binary(mark, left, right) =>
      OperandText(types, left, LeftLimit(mark)) + " " + mark + " " + OperandText(types, right, RightLimit(mark))
  }

  lemma CastText(before: string, to: string, inner: string)
    ensures before + "(" + to + ")(" + inner + ")" == before + ("(" + to + ")(" + inner + ")")
  {
  }

  function OperandText(types: set<string>, e: Tree, limit: nat): string
    requires Writable(types, e)
    decreases e, 1
  {
    if PrecedenceOf(e) <= limit then TextOf(types, e) else "(" + TextOf(types, e) + ")"
  }

  function ArgumentsText(types: set<string>, trees: Trees): string
    requires AllWritable(types, trees)
    decreases trees, 0
  {
    match trees
    case NoMore => ""
    case More(first, NoMore) => TextOf(types, first)
    case More(first, rest) => TextOf(types, first) + ", " + ArgumentsText(types, rest)
  }

  /** Without the parentheses, which C++ keeps no trace of. */
  function Stripped(e: Tree): Tree {
    match e
    case Name(_) => e
    case Parens(inner) => Stripped(inner)
    case Call(callee, arguments) => Call(Stripped(callee), AllStripped(arguments))
    case Index(left, index) => Index(Stripped(left), Stripped(index))
    case Member(left, mark, name) => Member(Stripped(left), mark, name)
    case Postfix(mark, operand) => Postfix(mark, Stripped(operand))
    case Prefix(mark, operand) => Prefix(mark, Stripped(operand))
    case Cast(to, inner) => Cast(to, Stripped(inner))
    case Binary(mark, left, right) => Binary(mark, Stripped(left), Stripped(right))
  }

  function AllStripped(trees: Trees): Trees {
    if trees == NoMore then NoMore else More(Stripped(trees.first), AllStripped(trees.rest))
  }

  /** The emitter, writing to `output` as it walks the tree. */
  class Emitter {
    var output: string
    const types: set<string>

    constructor (types: set<string>)
      ensures output == "" && this.types == types
    {
      output := "";
      this.types := types;
    }

    method Write(text: string)
      modifies this
      ensures output == old(output) + text
    {
      output := output + text;
    }

    method EmitExpression(e: Tree)
      requires Writable(types, e)
      modifies this
      ensures output == old(output) + TextOf(types, e)
      decreases e, 1
    {
      hide OperandText, ArgumentsText, LevelOf, IsPrefix, IsStep, PrecedenceOf, GluesTo, IsWord;
      match e
      case Name(text) => Write(text);
      case Parens(inner) =>
        Write("(");
        EmitExpression(inner);
        Write(")");
      case Call(_, _) => EmitCall(e);
      case Index(_, _) => EmitIndex(e);
      case Member(_, _, _) => EmitMember(e);
      case Postfix(_, _) => EmitPostfix(e);
      case Prefix(_, _) => EmitUnary(e);
      case Cast(_, _) => EmitCast(e);
      case Binary(_, _, _) => EmitBinary(e);
    }

    method EmitCall(e: Tree)
      requires e.Call? && Writable(types, e)
      modifies this
      ensures output == old(output) + TextOf(types, e)
      decreases e, 0
    {
      hide OperandText, ArgumentsText;
      EmitOperand(e.callee, 2);
      Write("(");
      EmitArguments(e.arguments);
      Write(")");
    }

    method EmitIndex(e: Tree)
      requires e.Index? && Writable(types, e)
      modifies this
      ensures output == old(output) + TextOf(types, e)
      decreases e, 0
    {
      hide OperandText;
      EmitOperand(e.left, 2);
      Write("[");
      EmitExpression(e.index);
      Write("]");
    }

    method EmitMember(e: Tree)
      requires e.Member? && Writable(types, e)
      modifies this
      ensures output == old(output) + TextOf(types, e)
      decreases e, 0
    {
      hide OperandText;
      EmitOperand(e.left, 2);
      Write(e.mark);
      Write(e.name);
    }

    method EmitCast(e: Tree)
      requires e.Cast? && Writable(types, e)
      modifies this
      ensures output == old(output) + TextOf(types, e)
      decreases e, 0
    {
      Write("(");
      Write(e.to);
      Write(")(");
      EmitExpression(e.inner);
      Write(")");
      CastText(old(output), e.to, TextOf(types, e.inner));
    }

    method EmitOperand(e: Tree, limit: nat)
      requires Writable(types, e)
      modifies this
      ensures output == old(output) + OperandText(types, e, limit)
      decreases e, 2
    {
      if PrecedenceOf(e) <= limit {
        EmitExpression(e);
        return;
      }
      Write("(");
      EmitExpression(e);
      Write(")");
    }

    method EmitBinary(e: Tree)
      requires e.Binary? && Writable(types, e)
      modifies this
      ensures output == old(output) + TextOf(types, e)
      decreases e, 0
    {
      hide OperandText, LevelOf;
      var level := PrecedenceOf(e);
      var toTheRight := level == ASSIGNMENT;
      EmitOperand(e.left, if toTheRight then level - 1 else level);
      Write(" ");
      Write(e.mark);
      Write(" ");
      EmitOperand(e.right, if toTheRight then level else level - 1);
    }

    method EmitUnary(e: Tree)
      requires e.Prefix? && Writable(types, e)
      modifies this
      ensures output == old(output) + TextOf(types, e)
      decreases e, 0
    {
      hide OperandText, GluesTo;
      Write(e.mark);
      EmitOperand(e.operand, if GluesTo(e.mark[0], e.operand) then 2 else 3);
    }

    method EmitPostfix(e: Tree)
      requires e.Postfix? && Writable(types, e)
      modifies this
      ensures output == old(output) + TextOf(types, e)
      decreases e, 0
    {
      EmitOperand(e.operand, 2);
      Write(e.mark);
    }

    method EmitArguments(trees: Trees)
      requires AllWritable(types, trees)
      modifies this
      ensures output == old(output) + ArgumentsText(types, trees)
      decreases trees, 0
    {
      hide TextOf;
      var rest := trees;
      while rest.More?
        invariant rest == trees || rest < trees
        invariant AllWritable(types, rest)
        invariant old(output) + ArgumentsText(types, trees) == output + ArgumentsText(types, rest)
        decreases rest
      {
        ghost var begun := rest;
        EmitExpression(rest.first);
        if rest.rest.More? {
          Write(", ");
        }
        rest := rest.rest;
      }
    }
  }
}
