/** How C++ reads an expression: its scanner, which takes the longest token (section 5.4 of
    ISO/IEC 14882:2017), and its grammar's levels (clause 8), from the postfix expressions to the
    assignments. The comma and the conditional are left out: nothing here writes them.
  */
module CppGrammar {
  import opened Wrappers

  // ----- Tokens -----

  datatype Token = Word(text: string) | Mark(text: string)

  predicate IsDigit(c: char) {
    '0' <= c <= '9'
  }

  predicate IsWordChar(c: char) {
    'a' <= c <= 'z' || 'A' <= c <= 'Z' || c == '_' || IsDigit(c)
  }

  function At(text: string, i: nat): char {
    if i < |text| then text[i] else ' '
  }

  /** The longest operator or punctuator that starts with these characters; 0 if none does, and
      if it is a comment. */
  function MarkLength(first: char, second: char, third: char): nat {
    match first
    case '.' => if second == '.' && third == '.' then 3 else if second == '*' then 2 else 1
    case '-' => if second == '>' then (if third == '*' then 3 else 2) else if second == '-' || second == '=' then 2 else 1
    case '+' => if second == '+' || second == '=' then 2 else 1
    case '&' => if second == '&' || second == '=' then 2 else 1
    case '|' => if second == '|' || second == '=' then 2 else 1
    case '<' =>
      if second == '<' then (if third == '=' then 3 else 2)
      else if second == '=' || second == ':' || second == '%' then 2 else 1
    case '>' => if second == '>' then (if third == '=' then 3 else 2) else if second == '=' then 2 else 1
    case '/' => if second == '/' || second == '*' then 0 else if second == '=' then 2 else 1
    case '%' => if second == '=' || second == '>' || second == ':' then 2 else 1
    case ':' => if second == ':' || second == '>' then 2 else 1
    case '#' => if second == '#' then 2 else 1
    case '*' => if second == '=' then 2 else 1
    case '^' => if second == '=' then 2 else 1
    case '!' => if second == '=' then 2 else 1
    case '=' => if second == '=' then 2 else 1
    case _ => if first in "~()[]{};,?" then 1 else 0
  }

  /** A name is a run of letters and digits; what starts with a digit goes on over a point, and
      over the sign of an exponent. */
  function WordEnd(text: string, i: nat): (end: nat)
    requires i <= |text|
    ensures i <= end <= |text|
    decreases |text| - i
  {
    if i < |text| && IsWordChar(text[i]) then WordEnd(text, i + 1) else i
  }

  function NumberEnd(text: string, i: nat): (end: nat)
    requires 0 < i <= |text|
    ensures i <= end <= |text|
    decreases |text| - i
  {
    if i < |text| && (IsWordChar(text[i]) || text[i] == '.' || (text[i] in "+-" && text[i - 1] in "eEpP"))
    then NumberEnd(text, i + 1) else i
  }

  function TokenEnd(text: string): (end: nat)
    requires text != []
    ensures end <= |text|
  {
    if IsDigit(text[0]) then NumberEnd(text, 1)
    else if IsWordChar(text[0]) then WordEnd(text, 1)
    else
      var end := MarkLength(text[0], At(text, 1), At(text, 2));
      if end <= |text| then end else 0
  }

  function Scan(text: string): Option<seq<Token>>
    decreases |text|
  {
    if text == [] then Some([])
    else if text[0] == ' ' then Scan(text[1..])
    else
      var end := TokenEnd(text);
      if end == 0 then None
      else
        var rest := Scan(text[end..]);
        if rest == None then None
        else Some([if IsWordChar(text[0]) then Word(text[..end]) else Mark(text[..end])] + rest.value)
  }

  // ----- Trees -----

  /** What C++ makes of an expression. A parenthesis leaves no trace but the grouping. */
  datatype Tree =
    | Name(text: string)
    | Parens(inner: Tree)
    | Call(callee: Tree, arguments: Trees)
    | Index(left: Tree, index: Tree)
    | Member(left: Tree, mark: string, name: string)
    | Postfix(mark: string, operand: Tree)
    | Prefix(mark: string, operand: Tree)
    | Cast(to: string, inner: Tree)
    | Binary(mark: string, left: Tree, right: Tree)

  datatype Trees = NoMore | More(first: Tree, rest: Trees)

  predicate IsStep(mark: string) {
    mark == "++" || mark == "--"
  }

  predicate IsPrefix(mark: string) {
    IsStep(mark) || mark == "-" || mark == "+" || mark == "~" || mark == "!" || mark == "&" || mark == "*"
  }

  const ASSIGNMENT: nat := 16

  /** The operators of each of the productions of clause 8 that fold, whose operands are of the
      production before: a multiplicative expression folds unary ones, an additive one
      multiplicative ones, an equality relational ones, an `and` equalities, and so on. */
  function OperatorsOf(level: nat): seq<string> {
    match level
    case 5 => ["*", "/", "%"]                 // multiplicative, 8.6
    case 6 => ["+", "-"]                      // additive, 8.7
    case 7 => ["<<", ">>"]                    // shift, 8.8
    case 9 => ["<", ">", "<=", ">="]          // relational, 8.9
    case 10 => ["==", "!="]                   // equality, 8.10
    case 11 => ["&"]                          // and, 8.11
    case 12 => ["^"]                          // exclusive or, 8.12
    case 13 => ["|"]                          // inclusive or, 8.13
    case 14 => ["&&"]                         // logical and, 8.14
    case 15 => ["||"]                         // logical or, 8.15
    case 16 => ["=", "*=", "/=", "%=", "+=", "-=", ">>=", "<<=", "&=", "^=", "|="]  // assignment, 8.18
    case _ => []
  }

  // ----- Reading -----

  type Read<T> = Option<(T, seq<Token>)>

  /** What is read is followed by less. */
  predicate Shorter<T>(read: Read<T>, tokens: seq<Token>) {
    read.Some? ==> |read.value.1| < |tokens|
  }

  predicate StartsWith(tokens: seq<Token>, mark: string) {
    tokens != [] && tokens[0] == Mark(mark)
  }

  predicate IsCast(types: set<string>, tokens: seq<Token>) {
    |tokens| >= 3 && tokens[0] == Mark("(") && tokens[1].Word? && tokens[1].text in types && tokens[2] == Mark(")")
  }

  function ReadPrimary(types: set<string>, tokens: seq<Token>): (r: Read<Tree>)
    ensures Shorter(r, tokens)
    decreases |tokens|, 0
  {
    if tokens == [] then None
    else if tokens[0].Word? then (if tokens[0].text in types then None else Some((Name(tokens[0].text), tokens[1..])))
    else if tokens[0] == Mark("(") then
      var inner := ReadLevel(types, ASSIGNMENT, tokens[1..]);
      if inner.Some? && StartsWith(inner.value.1, ")") then Some((inner.value.0, inner.value.1[1..])) else None
    else None
  }

  function ReadPostfix(types: set<string>, tokens: seq<Token>): (r: Read<Tree>)
    ensures Shorter(r, tokens)
    decreases |tokens|, 1
  {
    var left := ReadPrimary(types, tokens);
    if left == None then None else PostfixRest(types, left.value.0, left.value.1)
  }

  /** Calls, indices, members and steps, as many as follow. */
  function PostfixRest(types: set<string>, left: Tree, tokens: seq<Token>): (r: Read<Tree>)
    ensures r.Some? ==> |r.value.1| <= |tokens|
    decreases |tokens|, 0
  {
    if tokens == [] || tokens[0].Word? then Some((left, tokens))
    else if IsStep(tokens[0].text) then PostfixRest(types, Postfix(tokens[0].text, left), tokens[1..])
    else if tokens[0].text == "." || tokens[0].text == "->" then
      if |tokens| >= 2 && tokens[1].Word? then PostfixRest(types, Member(left, tokens[0].text, tokens[1].text), tokens[2..]) else None
    else if tokens[0].text == "[" then
      var index := ReadLevel(types, ASSIGNMENT, tokens[1..]);
      if index.Some? && StartsWith(index.value.1, "]") then PostfixRest(types, Index(left, index.value.0), index.value.1[1..]) else None
    else if tokens[0].text == "(" then
      if StartsWith(tokens[1..], ")") then PostfixRest(types, Call(left, NoMore), tokens[2..])
      else
        var arguments := ReadArguments(types, tokens[1..]);
        if arguments.Some? then PostfixRest(types, Call(left, arguments.value.0), arguments.value.1) else None
    else Some((left, tokens))
  }

  /** At least one, up to the closing parenthesis. */
  function ReadArguments(types: set<string>, tokens: seq<Token>): (r: Read<Trees>)
    ensures Shorter(r, tokens)
    decreases |tokens|, ASSIGNMENT + 4
  {
    var first := ReadLevel(types, ASSIGNMENT, tokens);
    if first == None then None
    else if StartsWith(first.value.1, ")") then Some((More(first.value.0, NoMore), first.value.1[1..]))
    else if StartsWith(first.value.1, ",") then
      var rest := ReadArguments(types, first.value.1[1..]);
      if rest == None then None else Some((More(first.value.0, rest.value.0), rest.value.1))
    else None
  }

  function ReadUnary(types: set<string>, tokens: seq<Token>): (r: Read<Tree>)
    ensures Shorter(r, tokens)
    decreases |tokens|, 2
  {
    if tokens != [] && tokens[0].Mark? && IsPrefix(tokens[0].text) then
      var operand := ReadUnary(types, tokens[1..]);
      if operand == None then None else Some((Prefix(tokens[0].text, operand.value.0), operand.value.1))
    else if IsCast(types, tokens) then
      var operand := ReadUnary(types, tokens[3..]);
      if operand == None then None else Some((Cast(tokens[1].text, operand.value.0), operand.value.1))
    else ReadPostfix(types, tokens)
  }

  /** What starts the tokens, read at this level. */
  function ReadLevel(types: set<string>, level: nat, tokens: seq<Token>): (r: Read<Tree>)
    requires 3 <= level <= ASSIGNMENT
    ensures Shorter(r, tokens)
    decreases |tokens|, level
  {
    if level == 3 then ReadUnary(types, tokens)
    else
      var left := ReadLevel(types, level - 1, tokens);
      if left == None then None
      else if level == ASSIGNMENT then AssignmentRest(types, left.value.0, left.value.1)
      else BinaryRest(types, level, left.value.0, left.value.1)
  }

  /** Operators of this level, folded from the left. */
  function BinaryRest(types: set<string>, level: nat, left: Tree, tokens: seq<Token>): (r: Read<Tree>)
    requires 4 <= level < ASSIGNMENT
    ensures r.Some? ==> |r.value.1| <= |tokens|
    decreases |tokens|, 0
  {
    if tokens != [] && tokens[0].Mark? && tokens[0].text in OperatorsOf(level) then
      var right := ReadLevel(types, level - 1, tokens[1..]);
      if right == None then None else BinaryRest(types, level, Binary(tokens[0].text, left, right.value.0), right.value.1)
    else Some((left, tokens))
  }

  /** An assignment, folded from the right. */
  function AssignmentRest(types: set<string>, left: Tree, tokens: seq<Token>): (r: Read<Tree>)
    ensures r.Some? ==> |r.value.1| <= |tokens|
    decreases |tokens|, 0
  {
    if tokens != [] && tokens[0].Mark? && tokens[0].text in OperatorsOf(ASSIGNMENT) then
      var right := ReadLevel(types, ASSIGNMENT, tokens[1..]);
      if right == None then None else Some((Binary(tokens[0].text, left, right.value.0), right.value.1))
    else Some((left, tokens))
  }

  /** A whole text, as an expression. */
  function ReadText(types: set<string>, text: string): Option<Tree> {
    var tokens := Scan(text);
    if tokens == None then None
    else
      var read := ReadLevel(types, ASSIGNMENT, tokens.value);
      if read.Some? && read.value.1 == [] then Some(read.value.0) else None
  }
}
