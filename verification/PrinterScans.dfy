/** C++'s scanner finds in what is written the tokens that were meant: no two written side by side
    make a longer one.
  */
module PrinterScans {
  import opened Wrappers
  import opened CppGrammar
  import opened OperatorPrinter
  import opened PrinterReads

  /** Tokens, and what was scanned after them. */
  function After(tokens: seq<Token>, scanned: Option<seq<Token>>): Option<seq<Token>> {
    if scanned == None then None else Some(tokens + scanned.value)
  }

  lemma AfterBoth(first: seq<Token>, second: seq<Token>, scanned: Option<seq<Token>>)
    ensures After(first, After(second, scanned)) == After(first + second, scanned)
  {
    if scanned.Some? {
      assert first + (second + scanned.value) == first + second + scanned.value;
    }
  }

  /** A token is not made longer by what follows it. */
  predicate Stands(text: string, rest: string) {
    text != "" && text[0] != ' ' && TokenEnd(text + rest) == |text|
  }

  lemma ScansToken(text: string, rest: string)
    requires Stands(text, rest)
    ensures Scan(text + rest) == After([if IsWordChar(text[0]) then Word(text) else Mark(text)], Scan(rest))
  {
    var all := text + rest;
    assert all[|text|..] == rest && all[..|text|] == text;
  }

  lemma ScansSpace(rest: string)
    ensures Scan(" " + rest) == Scan(rest)
  {
    assert (" " + rest)[1..] == rest;
  }

  // ----- Words -----

  lemma {:induction false} WordEnds(word: string, rest: string, i: nat)
    requires IsWord(word) && i <= |word| && (rest == [] || !IsWordChar(rest[0]))
    ensures WordEnd(word + rest, i) == |word|
    decreases |word| - i
  {
    if i < |word| {
      assert (word + rest)[i] == word[i] && word[i] in word;
      WordEnds(word, rest, i + 1);
    }
  }

  lemma {:induction false} NumberEnds(word: string, rest: string, i: nat)
    requires IsWord(word) && 0 < i <= |word| && (rest == [] || !(IsWordChar(rest[0]) || rest[0] in ".+-"))
    ensures NumberEnd(word + rest, i) == |word|
    decreases |word| - i
  {
    if i < |word| {
      assert (word + rest)[i] == word[i] && word[i] in word;
      NumberEnds(word, rest, i + 1);
    }
  }

  lemma ScansWord(word: string, rest: string)
    requires IsWord(word) && (rest == [] || !IsWordChar(rest[0]))
    requires rest == [] || !IsDigit(word[0]) || rest[0] !in ".+-"
    ensures Scan(word + rest) == After([Word(word)], Scan(rest))
  {
    assert word[0] in word;
    if IsDigit(word[0]) {
      NumberEnds(word, rest, 1);
    } else {
      WordEnds(word, rest, 1);
    }
    ScansToken(word, rest);
  }

  // ----- Marks -----

  lemma ScansBracket(mark: string, rest: string)
    requires mark == "(" || mark == ")" || mark == "[" || mark == "]" || mark == ","
    ensures Scan(mark + rest) == After(Marks(mark), Scan(rest))
  {
    assert (mark + rest)[0] == mark[0];
    ScansToken(mark, rest);
  }

  lemma ScansStep(mark: string, rest: string)
    requires IsStep(mark)
    ensures Scan(mark + rest) == After(Marks(mark), Scan(rest))
  {
    assert (mark + rest)[0] == mark[0] && At(mark + rest, 1) == mark[1];
    ScansToken(mark, rest);
  }

  lemma ScansMember(mark: string, rest: string)
    requires (mark == "." || mark == "->") && rest != [] && IsWordChar(rest[0])
    ensures Scan(mark + rest) == After(Marks(mark), Scan(rest))
  {
    assert (mark + rest)[0] == mark[0] && At(mark + rest, 1) == (if mark == "." then rest[0] else mark[1]);
    assert mark == "->" ==> At(mark + rest, 2) == rest[0];
    ScansToken(mark, rest);
  }

  /** A binary operator is written between spaces. */
  lemma ScansOperator(mark: string, rest: string)
    requires LevelOf(mark) > 0 && rest != [] && rest[0] == ' '
    ensures Scan(mark + rest) == After(Marks(mark), Scan(rest))
  {
    assert (mark + rest)[0] == mark[0];
    assert At(mark + rest, 1) == if |mark| == 1 then ' ' else mark[1];
    assert |mark| > 1 ==> At(mark + rest, 2) == if |mark| == 2 then ' ' else mark[2];
    OperatorLength(mark);
    ScansToken(mark, rest);
  }

  lemma OperatorLength(mark: string)
    requires LevelOf(mark) > 0
    ensures 1 <= |mark| <= 3 && !IsWordChar(mark[0]) && mark[0] != ' '
    ensures |mark| == 1 ==> forall third :: MarkLength(mark[0], ' ', third) == 1
    ensures |mark| == 2 ==> MarkLength(mark[0], mark[1], ' ') == 2
    ensures |mark| == 3 ==> MarkLength(mark[0], mark[1], mark[2]) == 3
  {
  }

  // ----- How a text starts -----

  predicate IsSign(c: char) {
    c in "-+~!&*"
  }

  lemma {:induction false} FirstChar(types: Types, e: Tree)
    requires Writable(types, e)
    ensures var text := TextOf(types, e);
            && text != []
            && (IsWordChar(text[0]) || text[0] == '(' || (PrecedenceOf(e) > 2 && IsSign(text[0])))
            && (e.Prefix? ==> text[0] == e.mark[0]) && (e.Cast? ==> text[0] == '(')
    decreases e, 0
  {
    match e
    case Name(text) => assert text[0] in text;
    case Parens(_) =>
    case Call(callee, _) => OperandChar(types, callee, 2);
    case Index(left, _) => OperandChar(types, left, 2);
    case Member(left, _, _) => OperandChar(types, left, 2);
    case Postfix(_, operand) => OperandChar(types, operand, 2);
    case Prefix(_, _) =>
    case Cast(_, _) =>
    case Binary(mark, left, _) => OperandChar(types, left, LeftLimit(mark));
  }

  lemma {:induction false} OperandChar(types: Types, e: Tree, limit: nat)
    requires Writable(types, e)
    ensures var text := OperandText(types, e, limit);
            && text != []
            && (IsWordChar(text[0]) || text[0] == '(' || (limit > 2 && PrecedenceOf(e) <= limit && IsSign(text[0])))
    decreases e, 1
  {
    FirstChar(types, e);
  }

  /** A prefix operator stands by itself before its operand: what would make a longer token of it
      is wrapped. */
  lemma ScansPrefix(types: Types, e: Tree, rest: string)
    requires e.Prefix? && Writable(types, e)
    ensures var text := OperandText(types, e.operand, PrefixLimit(e.mark, e.operand));
            Scan(e.mark + (text + rest)) == After(Marks(e.mark), Scan(text + rest))
  {
    var text := OperandText(types, e.operand, PrefixLimit(e.mark, e.operand));
    if IsStep(e.mark) {
      ScansStep(e.mark, text + rest);
    } else {
      OperandChar(types, e.operand, PrefixLimit(e.mark, e.operand));
      FirstChar(types, e.operand);
      var all := e.mark + (text + rest);
      assert all[0] == e.mark[0] && At(all, 1) == text[0];
      assert IsSign(text[0]) ==> e.operand.Prefix? && text[0] == e.operand.mark[0] && !GluesTo(e.mark[0], e.operand);
      AloneBefore(e.mark, text[0], At(all, 2));
      ScansToken(e.mark, text + rest);
    }
  }

  lemma AloneBefore(mark: string, second: char, third: char)
    requires IsPrefix(mark) && !IsStep(mark)
    requires IsWordChar(second) || second == '(' || (IsSign(second) && !(mark[0] == second && second in "-+&"))
    ensures |mark| == 1 && MarkLength(mark[0], second, third) == 1 && !IsWordChar(mark[0]) && mark[0] != ' '
  {
  }

  // ----- Every text -----

  /** What may come after an operand of this kind: its closer, a space or a comma, or what goes on
      a postfix expression. */
  predicate MayFollow(postfix: bool, number: bool, rest: string) {
    rest == [] || rest[0] in " ),]" || (postfix && (rest[0] in "([" || (!number && rest[0] in ".+-")))
  }

  lemma {:induction false} ScansTree(types: Types, e: Tree, rest: string)
    requires Writable(types, e) && MayFollow(PrecedenceOf(e) <= 2, IsNumber(e), rest)
    ensures Scan(TextOf(types, e) + rest) == After(TokensOf(types, e), Scan(rest))
    decreases e, 1
  {
    match e
    case Name(text) => ScansWord(text, rest);
    case Parens(inner) => ScansWrapped(types, inner, rest);
    case Call(_, _) => ScansCall(types, e, rest);
    case Index(_, _) => ScansIndex(types, e, rest);
    case Member(_, _, _) => ScansMemberOf(types, e, rest);
    case Postfix(mark, operand) =>
      assert TextOf(types, e) + rest == OperandText(types, operand, 2) + (mark + rest);
      ScansOperand(types, operand, 2, mark + rest);
      ScansStep(mark, rest);
      AfterBoth(OperandTokens(types, operand, 2), Marks(mark), Scan(rest));
    case Prefix(mark, operand) =>
      var limit := PrefixLimit(mark, operand);
      assert TextOf(types, e) + rest == mark + (OperandText(types, operand, limit) + rest);
      ScansPrefix(types, e, rest);
      ScansOperand(types, operand, limit, rest);
      AfterBoth(Marks(mark), OperandTokens(types, operand, limit), Scan(rest));
    case Cast(_, _) => ScansCast(types, e, rest);
    case Binary(_, _, _) => ScansBinary(types, e, rest);
  }

  lemma {:induction false} ScansWrapped(types: Types, e: Tree, rest: string)
    requires Writable(types, e)
    ensures Scan("(" + TextOf(types, e) + ")" + rest) == After(Wrapped(TokensOf(types, e)), Scan(rest))
    decreases e, 2
  {
    var text, tokens := TextOf(types, e), TokensOf(types, e);
    assert "(" + text + ")" + rest == "(" + (text + (")" + rest));
    ScansBracket("(", text + (")" + rest));
    ScansTree(types, e, ")" + rest);
    ScansBracket(")", rest);
    AfterBoth(tokens, Marks(")"), Scan(rest));
    AfterBoth(Marks("("), tokens + Marks(")"), Scan(rest));
    assert Wrapped(tokens) == Marks("(") + (tokens + Marks(")"));
  }

  lemma {:induction false} ScansOperand(types: Types, e: Tree, limit: nat, rest: string)
    requires Writable(types, e) && MayFollow(limit <= 2, IsNumber(e), rest)
    ensures Scan(OperandText(types, e, limit) + rest) == After(OperandTokens(types, e, limit), Scan(rest))
    decreases e, 3
  {
    if PrecedenceOf(e) <= limit {
      ScansTree(types, e, rest);
    } else {
      ScansWrapped(types, e, rest);
    }
  }

  lemma {:induction false} ScansCall(types: Types, e: Tree, rest: string)
    requires e.Call? && Writable(types, e)
    ensures Scan(TextOf(types, e) + rest) == After(TokensOf(types, e), Scan(rest))
    decreases e, 0
  {
    var callee, arguments := OperandText(types, e.callee, 2), ArgumentsText(types, e.arguments);
    var calleeTokens, tokens := OperandTokens(types, e.callee, 2), ArgumentsTokens(types, e.arguments);
    assert TextOf(types, e) + rest == callee + ("(" + (arguments + (")" + rest)));
    ScansOperand(types, e.callee, 2, "(" + (arguments + (")" + rest)));
    ScansBracket("(", arguments + (")" + rest));
    ScansArguments(types, e.arguments, rest);
    ScansBracket(")", rest);
    AfterThree(calleeTokens, "(", tokens, ")", Scan(rest));
  }

  lemma AfterThree(first: seq<Token>, open_: string, second: seq<Token>, close: string, scanned: Option<seq<Token>>)
    ensures After(first, After(Marks(open_), After(second, After(Marks(close), scanned)))) ==
            After(first + Marks(open_) + second + Marks(close), scanned)
  {
    AfterBoth(first + Marks(open_) + second, Marks(close), scanned);
    AfterBoth(first + Marks(open_), second, After(Marks(close), scanned));
    AfterBoth(first, Marks(open_), After(second, After(Marks(close), scanned)));
  }

  lemma {:induction false} ScansIndex(types: Types, e: Tree, rest: string)
    requires e.Index? && Writable(types, e)
    ensures Scan(TextOf(types, e) + rest) == After(TokensOf(types, e), Scan(rest))
    decreases e, 0
  {
    var left, index := OperandText(types, e.left, 2), TextOf(types, e.index);
    assert TextOf(types, e) + rest == left + ("[" + (index + ("]" + rest)));
    ScansOperand(types, e.left, 2, "[" + (index + ("]" + rest)));
    ScansBracket("[", index + ("]" + rest));
    ScansTree(types, e.index, "]" + rest);
    ScansBracket("]", rest);
    AfterThree(OperandTokens(types, e.left, 2), "[", TokensOf(types, e.index), "]", Scan(rest));
  }

  lemma {:induction false} ScansMemberOf(types: Types, e: Tree, rest: string)
    requires e.Member? && Writable(types, e) && (rest == [] || !IsWordChar(rest[0]))
    ensures Scan(TextOf(types, e) + rest) == After(TokensOf(types, e), Scan(rest))
    decreases e, 0
  {
    var left, leftTokens := OperandText(types, e.left, 2), OperandTokens(types, e.left, 2);
    assert TextOf(types, e) + rest == left + (e.mark + (e.name + rest));
    assert e.name[0] in e.name;
    ScansOperand(types, e.left, 2, e.mark + (e.name + rest));
    ScansMember(e.mark, e.name + rest);
    ScansWord(e.name, rest);
    AfterBoth(leftTokens + Marks(e.mark), [Word(e.name)], Scan(rest));
    AfterBoth(leftTokens, Marks(e.mark), After([Word(e.name)], Scan(rest)));
  }

  lemma {:induction false} ScansCast(types: Types, e: Tree, rest: string)
    requires e.Cast? && Writable(types, e)
    ensures Scan(TextOf(types, e) + rest) == After(TokensOf(types, e), Scan(rest))
    decreases e, 0
  {
    hide Scan, OperandText, OperandTokens, LevelOf;
    var inner, tokens := TextOf(types, e.inner), Wrapped(TokensOf(types, e.inner));
    var wrapped := "(" + inner + ")" + rest;
    assert TextOf(types, e) + rest == "(" + (e.to + (")" + wrapped));
    ScansBracket("(", e.to + (")" + wrapped));
    ScansWord(e.to, ")" + wrapped);
    ScansBracket(")", wrapped);
    ScansWrapped(types, e.inner, rest);
    AfterBoth(Marks("(") + [Word(e.to)] + Marks(")"), tokens, Scan(rest));
    AfterBoth(Marks("(") + [Word(e.to)], Marks(")"), After(tokens, Scan(rest)));
    AfterBoth(Marks("("), [Word(e.to)], After(Marks(")"), After(tokens, Scan(rest))));
  }

  lemma {:induction false} ScansBinary(types: Types, e: Tree, rest: string)
    requires e.Binary? && Writable(types, e) && MayFollow(false, false, rest)
    ensures Scan(TextOf(types, e) + rest) == After(TokensOf(types, e), Scan(rest))
    decreases e, 0
  {
    hide OperandText, OperandTokens, LevelOf;
    var leftLimit, rightLimit := LeftLimit(e.mark), RightLimit(e.mark);
    var left, right := OperandText(types, e.left, leftLimit), OperandText(types, e.right, rightLimit);
    var leftTokens, rightTokens := OperandTokens(types, e.left, leftLimit), OperandTokens(types, e.right, rightLimit);
    assert TextOf(types, e) + rest == left + (" " + (e.mark + (" " + (right + rest))));
    ScansOperand(types, e.left, leftLimit, " " + (e.mark + (" " + (right + rest))));
    ScansSpace(e.mark + (" " + (right + rest)));
    ScansOperator(e.mark, " " + (right + rest));
    ScansSpace(right + rest);
    ScansOperand(types, e.right, rightLimit, rest);
    AfterBoth(leftTokens + Marks(e.mark), rightTokens, Scan(rest));
    AfterBoth(leftTokens, Marks(e.mark), After(rightTokens, Scan(rest)));
  }

  lemma {:induction false} ScansArguments(types: Types, trees: Trees, rest: string)
    requires AllWritable(types, trees)
    ensures Scan(ArgumentsText(types, trees) + (")" + rest)) == After(ArgumentsTokens(types, trees), Scan(")" + rest))
    decreases trees
  {
    var close := ")" + rest;
    if trees == NoMore {
      assert ArgumentsText(types, trees) + close == close;
      assert Scan(close).Some? ==> [] + Scan(close).value == Scan(close).value;
    } else if trees.rest == NoMore {
      ScansTree(types, trees.first, close);
    } else {
      var text, others := TextOf(types, trees.first), ArgumentsText(types, trees.rest);
      assert ArgumentsText(types, trees) + close == text + ("," + (" " + (others + close)));
      ScansTree(types, trees.first, "," + (" " + (others + close)));
      ScansBracket(",", " " + (others + close));
      ScansSpace(others + close);
      ScansArguments(types, trees.rest, rest);
      AfterBoth(TokensOf(types, trees.first) + Marks(","), ArgumentsTokens(types, trees.rest), Scan(close));
      AfterBoth(TokensOf(types, trees.first), Marks(","), After(ArgumentsTokens(types, trees.rest), Scan(close)));
    }
  }

  /** So what is written for a tree is read back as that tree, with no operand grouped another
      way and no operator scanned into another. */
  lemma TextReadsBack(types: Types, e: Tree)
    requires Writable(types, e)
    ensures ReadText(types, TextOf(types, e)) == Some(Stripped(e))
  {
    hide Scan, ReadLevel;
    var text, tokens := TextOf(types, e), TokensOf(types, e);
    ScansTree(types, e, "");
    assert text + "" == text && tokens + [] == tokens;
    NothingScanned();
    ReadsExpression(types, e, []);
  }

  lemma NothingScanned()
    ensures Scan("") == Some([])
  {
  }

  /** Without the parentheses two minus signs are one token, another operator. */
  lemma GluedMinusIsAStep(types: Types, name: Tree)
    requires name.Name? && Writable(types, name)
    ensures var negative := Prefix("-", name);
            && Writable(types, Prefix("-", negative)) && TextOf(types, Prefix("-", negative)) == "-(" + TextOf(types, negative) + ")"
            && ReadText(types, "-" + TextOf(types, negative)) == Some(Prefix("--", name))
  {
    hide Scan, ReadText, LevelOf;
    var negative, step := Prefix("-", name), Prefix("--", name);
    assert "-" + TextOf(types, negative) == TextOf(types, step) && Stripped(step) == step;
    TextReadsBack(types, step);
  }

  /** Two operators between three names, written without a parenthesis. */
  function Bare(a: Tree, first: string, b: Tree, second: string, c: Tree): string
    requires a.Name? && b.Name? && c.Name?
  {
    (a.text + " " + first + " " + b.text) + " " + second + " " + c.text
  }

  predicate AreNames(types: Types, a: Tree, b: Tree, c: Tree) {
    a.Name? && b.Name? && c.Name? && Writable(types, a) && Writable(types, b) && Writable(types, c)
  }

  /** C++ groups them to the left where the first is tighter, or as tight and no assignment, and to
      the right otherwise; and the emitter writes them bare exactly where that is the tree. */
  lemma TwoOperators(types: Types, a: Tree, first: string, b: Tree, second: string, c: Tree)
    requires AreNames(types, a, b, c) && LevelOf(first) > 0 && LevelOf(second) > 0
    ensures var (left, right) := (Binary(second, Binary(first, a, b), c), Binary(first, a, Binary(second, b, c)));
            var toTheLeft := LevelOf(first) < LevelOf(second) || (LevelOf(first) == LevelOf(second) && LevelOf(first) < ASSIGNMENT);
            && Writable(types, left) && Writable(types, right)
            && ReadText(types, Bare(a, first, b, second, c)) == Some(if toTheLeft then left else right)
            && (TextOf(types, left) == Bare(a, first, b, second, c) <==> toTheLeft)
            && (TextOf(types, right) == Bare(a, first, b, second, c) <==> !toTheLeft)
  {
    hide ReadText, LevelOf, IsWord;
    var left, right := Binary(second, Binary(first, a, b), c), Binary(first, a, Binary(second, b, c));
    PairText(types, a, first, b);
    PairText(types, b, second, c);
    assert Stripped(left) == left && Stripped(right) == right by { NamesStay(types, a, b, c); }
    if LevelOf(first) <= LeftLimit(second) {
      assert TextOf(types, left) == Bare(a, first, b, second, c);
    } else {
      RightIsBare(types, a, first, b, second, c);
    }
    TextReadsBack(types, left);
    TextReadsBack(types, right);
  }

  lemma NamesStay(types: Types, a: Tree, b: Tree, c: Tree)
    requires AreNames(types, a, b, c)
    ensures Stripped(a) == a && Stripped(b) == b && Stripped(c) == c
  {
  }

  lemma PairText(types: Types, a: Tree, mark: string, b: Tree)
    requires AreNames(types, a, b, b) && LevelOf(mark) > 0
    ensures var pair := Binary(mark, a, b);
            && Writable(types, pair) && TextOf(types, pair) == a.text + " " + mark + " " + b.text
            && PrecedenceOf(pair) == LevelOf(mark) && PrecedenceOf(a) == 1
            && (forall limit {:trigger OperandText(types, a, limit)} :: 1 <= limit ==> OperandText(types, a, limit) == a.text)
            && (forall limit {:trigger OperandText(types, b, limit)} :: 1 <= limit ==> OperandText(types, b, limit) == b.text)
  {
    hide LevelOf, IsWord;
    assert TextOf(types, a) == a.text && TextOf(types, b) == b.text;
    assert OperandText(types, a, LeftLimit(mark)) == a.text && OperandText(types, b, RightLimit(mark)) == b.text;
  }

  lemma RightIsBare(types: Types, a: Tree, first: string, b: Tree, second: string, c: Tree)
    requires AreNames(types, a, b, c) && LevelOf(first) > 0 && LevelOf(second) > 0 && LevelOf(second) <= RightLimit(first)
    ensures var right := Binary(first, a, Binary(second, b, c));
            Writable(types, right) && TextOf(types, right) == Bare(a, first, b, second, c)
  {
    hide LevelOf, IsWord;
    PairText(types, a, first, b);
    PairText(types, b, second, c);
    var right, pair := Binary(first, a, Binary(second, b, c)), Binary(second, b, c);
    assert OperandText(types, pair, RightLimit(first)) == b.text + " " + second + " " + c.text;
    assert TextOf(types, right) == a.text + " " + first + " " + (b.text + " " + second + " " + c.text);
    Regrouped(a.text + " " + first + " ", b.text, " " + second + " ", c.text);
  }

  lemma Regrouped(before: string, b: string, mark: string, c: string)
    ensures before + (b + mark + c) == before + b + mark + c
  {
  }
}
