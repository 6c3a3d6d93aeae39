/** Worked cases of the left-hand-side check: what the dialog reports for
    small expression shapes such as `2*R1`, `R1*R2`, `R1+`, `R9` and
    `R1/2/3`, stated for any operand words in place of `2`, `R1`, ... */
module RegionExamples {
  import opened RegionTokens
  import opened RegionRules

  /** Two operands around one operator are read as three pieces. */
  lemma LexBinary(a: string, c: char, b: string)
    requires a != [] && b != [] && IsWord(a) && IsWord(b) && IsOperator(c)
    ensures Lex(a + [c] + b) == [Operand(a), Operator(c), Operand(b)]
  {
    LexSplit(a + [c], b);
    LexWordThenSeparator(a, c);
    LexWord(b);
  }

  /** The tags and reaction tokens of operand, operator, operand. */
  lemma TagsOfBinary(a: string, c: char, b: string, isNumber: string -> bool)
    ensures Tags([Operand(a), Operator(c), Operand(b)], isNumber)
            == [TagOf(Operand(a), isNumber), TagOf(Operator(c), isNumber), TagOf(Operand(b), isNumber)]
    ensures ReactionTokens([Operand(a), Operator(c), Operand(b)], isNumber)
            == (if isNumber(a) then [] else [a]) + (if isNumber(b) then [] else [b])
  {
    var x, y, z := Operand(a), Operator(c), Operand(b);
    TagsSnoc([], x, isNumber);
    assert [] + [x] == [x];
    TagsSnoc([x], y, isNumber);
    assert [x] + [y] == [x, y];
    TagsSnoc([x, y], z, isNumber);
    assert [x, y] + [z] == [x, y, z];
  }

  /** The tags and reaction tokens of a binary expression. */
  lemma ReadingOfBinary(a: string, c: char, b: string, isNumber: string -> bool)
    requires a != [] && b != [] && IsWord(a) && IsWord(b) && IsOperator(c)
    ensures Tags(Lex(a + [c] + b), isNumber) == [TagOf(Operand(a), isNumber), TagOf(Operator(c), isNumber), TagOf(Operand(b), isNumber)]
    ensures ReactionTokens(Lex(a + [c] + b), isNumber)
            == (if isNumber(a) then [] else [a]) + (if isNumber(b) then [] else [b])
  {
    LexBinary(a, c, b);
    TagsOfBinary(a, c, b, isNumber);
  }

  /** A number times a reaction of the model is accepted (`2*R1`). */
  lemma ScaledReactionAccepted(n: string, r: string, modelIds: seq<string>, isNumber: string -> bool)
    requires n != [] && r != [] && IsWord(n) && IsWord(r)
    requires isNumber(n) && !isNumber(r) && r in modelIds
    ensures LeftErrorText(n + ['*'] + r, modelIds, isNumber) == ""
  {
    var e := n + ['*'] + r;
    ReadingOfBinary(n, '*', r, isNumber);
    ScaledReactionWellFormed();
    assert ReactionTokens(Lex(e), isNumber) == [] + [r];
    assert ValidLeft(e, modelIds, isNumber);
    LeftErrorTextEmptyIff(e, modelIds, isNumber);
  }

  lemma ScaledReactionWellFormed()
    ensures WellFormedTags([Number, Multiplication, Reaction])
  {
    var t := [Number, Multiplication, Reaction];
    assert multiset(t)[Division] == 0;
  }

  /** The rules over reaction, `*`, reaction: only the product rule fires. */
  lemma LinesOfProduct(ids: seq<string>, modelIds: seq<string>)
    requires forall id :: id in ids ==> id in modelIds
    ensures TagLines([Reaction, Multiplication, Reaction], ids, modelIds) == [ReactionsMultiplied]
  {
    var t := [Reaction, Multiplication, Reaction];
    assert multiset(t)[Division] == 0;
    StepLinesEmpty(t, 0);
    StepLinesEmpty(t, 1);
    StepLinesUnrolled(t, 2);
    assert ScanLines(t, 3) == [ReactionsMultiplied];
    UnknownLinesEmpty(ids, modelIds);
  }

  /** Two reactions multiplied together give exactly that one line (`R1*R2`). */
  lemma MultipliedReactionsRejected(r1: string, r2: string, modelIds: seq<string>, isNumber: string -> bool)
    requires r1 != [] && r2 != [] && IsWord(r1) && IsWord(r2)
    requires !isNumber(r1) && !isNumber(r2) && r1 in modelIds && r2 in modelIds
    ensures LeftErrors(r1 + "*" + r2, modelIds, isNumber) == [ReactionsMultiplied]
  {
    var e := r1 + "*" + r2;
    assert e == r1 + ['*'] + r2;
    ReadingOfBinary(r1, '*', r2, isNumber);
    assert Tags(Lex(e), isNumber) == [Reaction, Multiplication, Reaction];
    assert ReactionTokens(Lex(e), isNumber) == [r1, r2];
    LeftErrorsOfReading(e, [Reaction, Multiplication, Reaction], [r1, r2], modelIds, isNumber);
    LinesOfProduct([r1, r2], modelIds);
  }

  /** The rules over a reaction followed by an operator: only the end rule fires. */
  lemma LinesOfTrailingOperator(op: Tag, ids: seq<string>, modelIds: seq<string>)
    requires op != Reaction && op != Number
    requires forall id :: id in ids ==> id in modelIds
    ensures TagLines([Reaction, op], ids, modelIds) == [EndsWithOperator]
  {
    var t := [Reaction, op];
    assert multiset(t)[Division] <= 1;
    assert GlobalLines(t) == [];
    assert EndLines(t) == [EndsWithOperator];
    assert WindowOk(t, 0) && WindowOk(t, 1);
    ScanLinesEmptyIff(t);
    UnknownLinesEmpty(ids, modelIds);
    assert TagLines(t, ids, modelIds) == [] + [] + [EndsWithOperator] + [];
  }

  /** The reading of a reaction followed by an operator. */
  lemma ReadingOfTrailingOperator(r: string, c: char, isNumber: string -> bool)
    requires r != [] && IsWord(r) && IsOperator(c) && !isNumber(r)
    ensures Tags(Lex(r + [c]), isNumber) == [Reaction, TagOf(Operator(c), isNumber)]
    ensures ReactionTokens(Lex(r + [c]), isNumber) == [r]
  {
    LexWordThenSeparator(r, c);
    var x, y := Operand(r), Operator(c);
    assert Lex(r + [c]) == [x] + [y];
    TagsSnoc([], x, isNumber);
    assert [] + [x] == [x];
    TagsSnoc([x], y, isNumber);
    assert [x] + [y] == [x, y];
  }

  /** An expression may not end with an operator (`R1+`). */
  lemma TrailingOperatorRejected(r: string, c: char, modelIds: seq<string>, isNumber: string -> bool)
    requires r != [] && IsWord(r) && IsOperator(c)
    requires !isNumber(r) && r in modelIds
    ensures LeftErrors(r + [c], modelIds, isNumber) == [EndsWithOperator]
  {
    ReadingOfTrailingOperator(r, c, isNumber);
    var op := TagOf(Operator(c), isNumber);
    LeftErrorsOfReading(r + [c], [Reaction, op], [r], modelIds, isNumber);
    LinesOfTrailingOperator(op, [r], modelIds);
  }

  /** An identifier the model does not have is named in the report (`R9`). */
  lemma UnknownReactionReported(r: string, modelIds: seq<string>, isNumber: string -> bool)
    requires r != [] && IsWord(r)
    requires !isNumber(r) && r !in modelIds
    ensures LeftErrors(r, modelIds, isNumber) == [UnknownReaction(r)]
  {
    LexWord(r);
    TagsSnoc([], Operand(r), isNumber);
    assert [] + [Operand(r)] == [Operand(r)];
    LeftErrorsOfReading(r, [Reaction], [r], modelIds, isNumber);
    LinesOfSingleReaction(r, modelIds);
  }

  /** The rules over reaction, `/`, number, `/`, number: only the count of
      divisions is wrong. */
  predicate TwoDivisionsShape(t: seq<Tag>) {
    |t| == 5 && t[0] == Reaction && t[1] == Division && t[2] == Number && t[3] == Division && t[4] == Number
  }

  lemma LinesOfTwoDivisions(t: seq<Tag>, ids: seq<string>, modelIds: seq<string>)
    requires TwoDivisionsShape(t)
    requires forall id :: id in ids ==> id in modelIds
    ensures TagLines(t, ids, modelIds) == [MoreThanOneDivision]
  {
    GlobalLinesOfTwoDivisions(t);
    ScanOfTwoDivisions(t);
    assert t[|t| - 1] == Number && t[|t| - 2] == Division && !IsMulDiv(Number);
    assert EndLines(t) == [] + [];
    UnknownLinesEmpty(ids, modelIds);
  }

  lemma GlobalLinesOfTwoDivisions(t: seq<Tag>)
    requires TwoDivisionsShape(t)
    ensures GlobalLines(t) == [MoreThanOneDivision]
  {
    assert t == [Reaction, Division, Number, Division, Number];
    assert t[0] == Reaction;
    assert multiset(t)[Division] == 2;
  }

  lemma ScanOfTwoDivisions(t: seq<Tag>)
    requires TwoDivisionsShape(t)
    ensures ScanLines(t, |t|) == []
  {
    forall i | 0 <= i < |t|
      ensures WindowOk(t, i)
    {
      assert i == 0 || PairAllowed(t[i - 1], t[i]);
    }
    ScanLinesEmptyIff(t);
  }

  /** The pieces of `r/a/b`. */
  lemma LexOfTwoDivisions(r: string, a: string, b: string)
    requires r != [] && a != [] && b != [] && IsWord(r) && IsWord(a) && IsWord(b)
    ensures Lex(r + ['/'] + a + ['/'] + b) == [Operand(r), Operator('/')] + [Operand(a), Operator('/'), Operand(b)]
  {
    var e := r + ['/'] + a + ['/'] + b;
    LexWordThenSeparator(r, '/');
    LexBinary(a, '/', b);
    Regroup(r, ['/'], a, ['/'], b);
    LexSplit(r + ['/'], a + ['/'] + b);
    assert Lex(e) == Lex(r + ['/']) + Lex(a + ['/'] + b);
    assert WordPieces(r) + SeparatorPieces('/') == [Operand(r), Operator('/')];
  }

  lemma Regroup<T>(p: seq<T>, q: seq<T>, r: seq<T>, u: seq<T>, v: seq<T>)
    ensures p + q + r + u + v == (p + q) + (r + u + v)
  {
  }

  /** The reading of `r/a/b`. */
  lemma ReadingOfTwoDivisions(r: string, a: string, b: string, isNumber: string -> bool)
    requires r != [] && a != [] && b != [] && IsWord(r) && IsWord(a) && IsWord(b)
    requires !isNumber(r) && isNumber(a) && isNumber(b)
    ensures TwoDivisionsShape(Tags(Lex(r + ['/'] + a + ['/'] + b), isNumber))
    ensures ReactionTokens(Lex(r + ['/'] + a + ['/'] + b), isNumber) == [r]
  {
    LexOfTwoDivisions(r, a, b);
    var x, y := Operand(r), Operator('/');
    var front, back := [x, y], [Operand(a), Operator('/'), Operand(b)];
    TagsAppend(front, back, isNumber);
    TagsSnoc([], x, isNumber);
    assert [] + [x] == [x];
    TagsSnoc([x], y, isNumber);
    assert [x] + [y] == front;
    TagsOfBinary(a, '/', b, isNumber);
    assert Tags(front, isNumber) == [Reaction, Division] && ReactionTokens(front, isNumber) == [r];
    assert Tags(back, isNumber) == [Number, Division, Number] && ReactionTokens(back, isNumber) == [];
    assert [Reaction, Division] + [Number, Division, Number] == [Reaction, Division, Number, Division, Number];
  }

  /** More than one division is one line, whatever else is right (`R1/2/3`). */
  lemma TwoDivisionsRejected(r: string, a: string, b: string, modelIds: seq<string>, isNumber: string -> bool)
    requires r != [] && a != [] && b != [] && IsWord(r) && IsWord(a) && IsWord(b)
    requires !isNumber(r) && isNumber(a) && isNumber(b) && r in modelIds
    ensures LeftErrors(r + ['/'] + a + ['/'] + b, modelIds, isNumber) == [MoreThanOneDivision]
  {
    var e := r + ['/'] + a + ['/'] + b;
    ReadingOfTwoDivisions(r, a, b, isNumber);
    var t := Tags(Lex(e), isNumber);
    LeftErrorsOfReading(e, t, [r], modelIds, isNumber);
    LinesOfTwoDivisions(t, [r], modelIds);
  }

  /** An empty left-hand side names no reaction. */
  lemma EmptyExpressionRejected(modelIds: seq<string>, isNumber: string -> bool)
    ensures LeftErrors("", modelIds, isNumber) == [NoReactionId]
  {
    assert Tags(Lex(""), isNumber) == [];
  }
}
