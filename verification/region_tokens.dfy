/** Tokenisation of the left-hand side of a target or desired region row
    (`check_left_mcs_equation`, first loop): the expression is cut into
    operand tokens and operator characters, and every piece gets a tag. */
module RegionTokens {

  /** The syntactic class of one piece of a region expression. */
  datatype Tag = Reaction | Number | Multiplication | Division | Dash

  /** One piece of an expression: an operand token or an operator character. */
  datatype Lexeme = Operand(text: string) | Operator(symbol: char)

  predicate IsOperator(c: char) {
    c == '*' || c == '/' || c == '+' || c == '-'
  }

  /** A space or an operator character ends the operand token being read. */
  predicate IsSeparator(c: char) {
    c == ' ' || IsOperator(c)
  }

  predicate IsWord(w: string) {
    forall i :: 0 <= i < |w| ==> !IsSeparator(w[i])
  }

  /** Length of the maximal run of non-separator characters at the front of `s`. */
  function OperandLength(s: string): (n: nat)
    ensures n <= |s|
    ensures IsWord(s[..n])
    ensures n == |s| || IsSeparator(s[n])
  {
    if s == [] || IsSeparator(s[0]) then 0
    else
      var m := OperandLength(s[1..]);
      assert s[..1 + m] == [s[0]] + s[1..][..m];
      1 + m
  }

  /** The reference reading of an expression: spaces are dropped, every
      operator character is a piece of its own, and every maximal run of
      other characters is one operand token. */
  function Lex(s: string): seq<Lexeme>
    decreases |s|
  {
    if s == [] then []
    else if s[0] == ' ' then Lex(s[1..])
    else if IsOperator(s[0]) then [Operator(s[0])] + Lex(s[1..])
    else
      var n := OperandLength(s);
      [Operand(s[..n])] + Lex(s[n..])
  }

  /** `float()` accepts an operand exactly when it is a number; every other
      operand is read as a reaction identifier. */
  function TagOf(l: Lexeme, isNumber: string -> bool): Tag {
    match l
    case Operand(w) => if isNumber(w) then Number else Reaction
    case Operator(c) =>
      if c == '*' then Multiplication
      else if c == '/' then Division
      else Dash
  }

  function Tags(ls: seq<Lexeme>, isNumber: string -> bool): (t: seq<Tag>)
    ensures |t| == |ls|
  {
    if ls == [] then [] else Tags(ls[..|ls| - 1], isNumber) + [TagOf(ls[|ls| - 1], isNumber)]
  }

  /** The operand tokens that are not numbers, in order. */
  function ReactionTokens(ls: seq<Lexeme>, isNumber: string -> bool): seq<string> {
    if ls == [] then []
    else
      var l := ls[|ls| - 1];
      ReactionTokens(ls[..|ls| - 1], isNumber)
        + (if l.Operand? && !isNumber(l.text) then [l.text] else [])
  }

  /** The expression with its spaces removed. */
  function WithoutSpaces(s: string): string {
    if s == [] then []
    else (if s[0] == ' ' then [] else [s[0]]) + WithoutSpaces(s[1..])
  }

  /** The characters a sequence of pieces was read from, spaces aside. */
  function Render(ls: seq<Lexeme>): string {
    if ls == [] then []
    else
      (match ls[0] case Operand(w) => w case Operator(c) => [c]) + Render(ls[1..])
  }

  // ---------------------------------------------------------------------
  // Properties of the reference reading

  lemma OperandLengthOfLonger(p: string, q: string)
    requires OperandLength(p) < |p|
    ensures OperandLength(p + q) == OperandLength(p)
  {
    var n, m := OperandLength(p), OperandLength(p + q);
    assert (p + q)[n] == p[n];
  }

  lemma OperandLengthOfWord(w: string)
    requires IsWord(w)
    ensures OperandLength(w) == |w|
  {
    var n := OperandLength(w);
    if n < |w| {
      assert !IsSeparator(w[n]);
    }
  }

  /** A piece boundary after a separator: what follows is read on its own. */
  lemma {:induction false} LexSplit(p: string, q: string)
    requires p == [] || IsSeparator(p[|p| - 1])
    ensures Lex(p + q) == Lex(p) + Lex(q)
    decreases |p|
  {
    if p == [] {
      assert p + q == q;
    } else if IsSeparator(p[0]) {
      assert (p + q)[1..] == p[1..] + q;
      LexSplit(p[1..], q);
    } else {
      var n := OperandLength(p);
      OperandLengthOfLonger(p, q);
      assert (p + q)[..n] == p[..n];
      assert (p + q)[n..] == p[n..] + q;
      LexSplit(p[n..], q);
    }
  }

  /** A run of ordinary characters is one operand token (none when empty). */
  lemma LexWord(w: string)
    requires IsWord(w)
    ensures Lex(w) == WordPieces(w)
  {
    if w != [] {
      OperandLengthOfWord(w);
      assert w[..|w|] == w;
      assert w[|w|..] == [];
    }
  }

  /** A lone separator: nothing for a space, the operator otherwise. */
  lemma LexSeparator(c: char)
    requires IsSeparator(c)
    ensures Lex([c]) == SeparatorPieces(c)
  {
    assert [c][1..] == [];
  }

  /** A run of ordinary characters closed by a separator. */
  lemma LexWordThenSeparator(w: string, c: char)
    requires IsWord(w) && IsSeparator(c)
    ensures Lex(w + [c]) == WordPieces(w) + SeparatorPieces(c)
  {
    LexSeparator(c);
    if w == [] {
      assert w + [c] == [c];
    } else {
      var s := w + [c];
      var n := OperandLength(s);
      assert s[..|w|] == w;
      assert s[|w|] == c;
      assert s[..n] == w;
      assert s[n..] == [c];
    }
  }

  /** The pieces a buffered word contributes: none when it is empty. */
  function WordPieces(w: string): seq<Lexeme> {
    if w == [] then [] else [Operand(w)]
  }

  /** The piece a separator contributes: none for a space. */
  function SeparatorPieces(c: char): seq<Lexeme> {
    if c == ' ' then [] else [Operator(c)]
  }

  /** What the scanning loop does when it meets a separator at position `k`:
      the word buffered since `start`, and then the separator's own piece,
      are added to the reading of everything before `start`. */
  lemma LexFlush(text: string, start: nat, k: nat)
    requires start <= k < |text|
    requires start == 0 || IsSeparator(text[start - 1])
    requires IsWord(text[start..k]) && IsSeparator(text[k])
    ensures Lex(text[..k + 1]) == Lex(text[..start]) + WordPieces(text[start..k]) + SeparatorPieces(text[k])
  {
    var prefix, w, c := text[..start], text[start..k], text[k];
    assert text[..k + 1] == prefix + (w + [c]);
    LexSplit(prefix, w + [c]);
    LexWordThenSeparator(w, c);
  }

  /** What the scanning loop does at the end: the buffered word is added. */
  lemma LexFinish(text: string, start: nat, k: nat)
    requires start <= k <= |text|
    requires start == 0 || IsSeparator(text[start - 1])
    requires IsWord(text[start..k])
    ensures Lex(text[..k]) == Lex(text[..start]) + WordPieces(text[start..k])
  {
    var prefix, w := text[..start], text[start..k];
    assert text[..k] == prefix + w;
    LexSplit(prefix, w);
    LexWord(w);
  }

  /** Every operand token is non-empty and holds no space or operator;
      every operator piece is one of `*`, `/`, `+`, `-`. */
  lemma {:induction false} LexPiecesWellFormed(s: string)
    ensures forall l :: l in Lex(s) && l.Operand? ==> l.text != [] && IsWord(l.text)
    ensures forall l :: l in Lex(s) && l.Operator? ==> IsOperator(l.symbol)
    decreases |s|
  {
    if s == [] {
    } else if IsSeparator(s[0]) {
      LexPiecesWellFormed(s[1..]);
    } else {
      var n := OperandLength(s);
      LexPiecesWellFormed(s[n..]);
    }
  }

  lemma {:induction false} WithoutSpacesAppend(a: string, b: string)
    ensures WithoutSpaces(a + b) == WithoutSpaces(a) + WithoutSpaces(b)
    decreases |a|
  {
    if a == [] {
      assert a + b == b;
    } else {
      assert (a + b)[1..] == a[1..] + b;
      WithoutSpacesAppend(a[1..], b);
    }
  }

  lemma {:induction false} WithoutSpacesOfWord(w: string)
    requires IsWord(w)
    ensures WithoutSpaces(w) == w
    decreases |w|
  {
    if w != [] {
      WithoutSpacesOfWord(w[1..]);
    }
  }

  /** Reading loses nothing but spaces: the pieces, written out one after
      the other, give back the expression without its spaces. */
  lemma {:induction false} LexRendersInput(s: string)
    ensures Render(Lex(s)) == WithoutSpaces(s)
    decreases |s|
  {
    if s == [] {
    } else if IsSeparator(s[0]) {
      LexRendersInput(s[1..]);
    } else {
      var n := OperandLength(s);
      assert s == s[..n] + s[n..];
      WithoutSpacesAppend(s[..n], s[n..]);
      WithoutSpacesOfWord(s[..n]);
      LexRendersInput(s[n..]);
      var ls := Lex(s);
      assert ls[0] == Operand(s[..n]) && ls[1..] == Lex(s[n..]);
    }
  }

  /** The reaction tokens are the pieces tagged `Reaction`: there are as
      many of them, and each is an operand that is not a number. */
  lemma {:induction false} ReactionTokensMatchTags(ls: seq<Lexeme>, isNumber: string -> bool)
    ensures |ReactionTokens(ls, isNumber)| == multiset(Tags(ls, isNumber))[Reaction]
    ensures forall w :: w in ReactionTokens(ls, isNumber) ==> Operand(w) in ls && !isNumber(w)
    decreases |ls|
  {
    if ls != [] {
      var init, l := ls[..|ls| - 1], ls[|ls| - 1];
      ReactionTokensMatchTags(init, isNumber);
    }
  }

  /** The tag at each position is the tag of the piece there alone. */
  lemma {:induction false} TagsAt(ls: seq<Lexeme>, isNumber: string -> bool)
    ensures forall k :: 0 <= k < |ls| ==> Tags(ls, isNumber)[k] == TagOf(ls[k], isNumber)
    decreases |ls|
  {
    if ls != [] {
      var init := ls[..|ls| - 1];
      TagsAt(init, isNumber);
      assert forall k :: 0 <= k < |init| ==> init[k] == ls[k];
    }
  }

  /** ... and they come one for one and in order: the piece at position `k`
      is tagged `Reaction` exactly when it is an operand that is not a
      number, and then, and only then, adds its text to the tokens read
      before it. */
  lemma ReactionTokensInOrder(ls: seq<Lexeme>, isNumber: string -> bool)
    ensures forall k :: 0 <= k < |ls| ==>
      (Tags(ls, isNumber)[k] == Reaction <==> ls[k].Operand? && !isNumber(ls[k].text))
    ensures forall k :: 0 <= k < |ls| ==>
      ReactionTokens(ls[..k + 1], isNumber)
        == ReactionTokens(ls[..k], isNumber) + (if Tags(ls, isNumber)[k] == Reaction then [ls[k].text] else [])
  {
    TagsAt(ls, isNumber);
    forall k | 0 <= k < |ls|
      ensures TagOf(ls[k], isNumber) == Reaction <==> ls[k].Operand? && !isNumber(ls[k].text)
      ensures ReactionTokens(ls[..k + 1], isNumber)
        == ReactionTokens(ls[..k], isNumber) + (if TagOf(ls[k], isNumber) == Reaction then [ls[k].text] else [])
    {
      ReactionTokenAt(ls, k, isNumber);
    }
  }

  /** One step of `ReactionTokensInOrder`. */
  lemma ReactionTokenAt(ls: seq<Lexeme>, k: nat, isNumber: string -> bool)
    requires k < |ls|
    ensures TagOf(ls[k], isNumber) == Reaction <==> ls[k].Operand? && !isNumber(ls[k].text)
    ensures ReactionTokens(ls[..k + 1], isNumber)
      == ReactionTokens(ls[..k], isNumber) + (if TagOf(ls[k], isNumber) == Reaction then [ls[k].text] else [])
  {
    assert ls[..k + 1] == ls[..k] + [ls[k]];
    TagsSnoc(ls[..k], ls[k], isNumber);
  }

  /** Tags and reaction tokens of a reading extended by one piece. */
  lemma TagsSnoc(ls: seq<Lexeme>, l: Lexeme, isNumber: string -> bool)
    ensures Tags(ls + [l], isNumber) == Tags(ls, isNumber) + [TagOf(l, isNumber)]
    ensures ReactionTokens(ls + [l], isNumber)
            == ReactionTokens(ls, isNumber) + (if l.Operand? && !isNumber(l.text) then [l.text] else [])
  {
    assert (ls + [l])[..|ls|] == ls;
  }

  /** Tags and reaction tokens distribute over concatenated readings. */
  lemma {:induction false} TagsAppend(p: seq<Lexeme>, q: seq<Lexeme>, isNumber: string -> bool)
    ensures Tags(p + q, isNumber) == Tags(p, isNumber) + Tags(q, isNumber)
    ensures ReactionTokens(p + q, isNumber) == ReactionTokens(p, isNumber) + ReactionTokens(q, isNumber)
    decreases |q|
  {
    if q == [] {
      assert p + q == p;
    } else {
      var init, l := q[..|q| - 1], q[|q| - 1];
      assert p + q == (p + init) + [l];
      TagsAppend(p, init, isNumber);
      TagsSnoc(p + init, l, isNumber);
      TagsSnoc(init, l, isNumber);
      assert init + [l] == q;
    }
  }

  /** An operand token holds no `/`. */
  lemma NoSlashInWord(w: string)
    requires IsWord(w)
    ensures multiset(w)['/'] == 0
  {
    forall i | 0 <= i < |w|
      ensures w[i] != '/'
    {
      assert !IsSeparator(w[i]);
    }
    assert '/' !in w;
  }

  /** Reading a leading space or operator: the `/` count of the text and the
      `Division` count of its tags both drop by one for a `/`, by none else. */
  lemma DivisionCountOfSeparator(s: string, isNumber: string -> bool)
    requires s != [] && IsSeparator(s[0])
    ensures multiset(Tags(Lex(s), isNumber))[Division]
      == multiset(Tags(Lex(s[1..]), isNumber))[Division] + (if s[0] == '/' then 1 else 0)
    ensures multiset(s)['/'] == multiset(s[1..])['/'] + (if s[0] == '/' then 1 else 0)
  {
    assert s == [s[0]] + s[1..];
    if IsOperator(s[0]) {
      TagsSnoc([], Operator(s[0]), isNumber);
      assert [] + [Operator(s[0])] == [Operator(s[0])];
      TagsAppend([Operator(s[0])], Lex(s[1..]), isNumber);
    }
  }

  /** Reading a leading operand token: it adds no `Division` tag and holds no `/`. */
  lemma DivisionCountOfWord(s: string, isNumber: string -> bool)
    requires s != [] && !IsSeparator(s[0])
    ensures 0 < OperandLength(s)
    ensures multiset(Tags(Lex(s), isNumber))[Division]
      == multiset(Tags(Lex(s[OperandLength(s)..]), isNumber))[Division]
    ensures multiset(s)['/'] == multiset(s[OperandLength(s)..])['/']
  {
    var n := OperandLength(s);
    assert s == s[..n] + s[n..];
    NoSlashInWord(s[..n]);
    TagsSnoc([], Operand(s[..n]), isNumber);
    assert [] + [Operand(s[..n])] == [Operand(s[..n])];
    TagsAppend([Operand(s[..n])], Lex(s[n..]), isNumber);
  }

  /** Every `/` of the expression, and nothing else, is read as a `Division`
      piece. */
  lemma {:induction false} DivisionTagsCountSlashes(s: string, isNumber: string -> bool)
    ensures multiset(Tags(Lex(s), isNumber))[Division] == multiset(s)['/']
    decreases |s|
  {
    if s != [] {
      if IsSeparator(s[0]) {
        DivisionCountOfSeparator(s, isNumber);
        DivisionTagsCountSlashes(s[1..], isNumber);
      } else {
        DivisionCountOfWord(s, isNumber);
        DivisionTagsCountSlashes(s[OperandLength(s)..], isNumber);
      }
    }
  }

  // ---------------------------------------------------------------------
  // The scanning loop as the dialog runs it

  /** Where the scan stands: the pieces flushed so far and the position at
      which the buffered word starts. */
  datatype Scan = Scan(pieces: seq<Lexeme>, start: nat)

  /** The scan after the first `k` characters of `text`, one character at a
      time. */
  ghost function ScanState(text: string, k: nat): Scan
    requires k <= |text|
  {
    if k == 0 then Scan([], 0)
    else
      var s := ScanState(text, k - 1);
      if IsSeparator(text[k - 1]) && s.start <= k - 1 then
        Scan(s.pieces + WordPieces(text[s.start..k - 1]) + SeparatorPieces(text[k - 1]), k)
      else s
  }

  /** The character-by-character scan agrees with the reference reading: the
      flushed pieces are the reading of everything before the buffered word,
      and the buffered word is a run of ordinary characters. */
  lemma {:induction false} ScanStateReadsLex(text: string, k: nat)
    requires k <= |text|
    ensures ScanState(text, k).start <= k
    ensures var start := ScanState(text, k).start;
      && (start == 0 || IsSeparator(text[start - 1]))
      && IsWord(text[start..k])
      && ScanState(text, k).pieces == Lex(text[..start])
  {
    if k > 0 {
      ScanStateReadsLex(text, k - 1);
      var start := ScanState(text, k - 1).start;
      if IsSeparator(text[k - 1]) {
        LexFlush(text, start, k - 1);
      } else {
        assert text[start..k] == text[start..k - 1] + [text[k - 1]];
      }
    }
  }

  /** Once the whole equation has been scanned, the flushed pieces and the
      buffered word together are the reference reading of the equation. */
  lemma ScanReadsEquation(equation: string)
    ensures var text := equation + " ";
      var s := ScanState(text, |equation|);
      s.start <= |equation| &&
      s.pieces + WordPieces(text[s.start..|equation|]) == Lex(equation)
  {
    var text := equation + " ";
    var k := |equation|;
    ScanStateReadsLex(text, k);
    LexFinish(text, ScanState(text, k).start, k);
    assert text[..k] == equation;
  }

  /** Scans `equation` one character at a time, buffering ordinary characters
      into the current token and flushing the token at a space, at an
      operator, and at the end; returns the tag sequence and the tokens that
      were not numbers. */
  method Tokenize(equation: string, isNumber: string -> bool)
    returns (semantics: seq<Tag>, reactionIds: seq<string>)
    ensures semantics == Tags(Lex(equation), isNumber)
    ensures reactionIds == ReactionTokens(Lex(equation), isNumber)
  {
    var text := equation + " ";
    semantics, reactionIds := [], [];
    ghost var pieces: seq<Lexeme> := [];
    ghost var start: nat := 0;
    var lastPart := "";
    var counter := 1;
    var k := 0;
    while k < |text|
      invariant k < |text| && counter == k + 1
      invariant Scan(pieces, start) == ScanState(text, k)
      invariant start <= k && lastPart == text[start..k]
      invariant semantics == Tags(pieces, isNumber)
      invariant reactionIds == ReactionTokens(pieces, isNumber)
      decreases |text| - k
    {
      if counter == |text| {
        // the appended space: flush the last token and stop
        semantics, reactionIds, pieces := FlushWord(lastPart, semantics, reactionIds, pieces, isNumber);
        ScanReadsEquation(equation);
        break;
      }
      semantics, reactionIds, lastPart, pieces, start := ReadChar(text, k, semantics, reactionIds, lastPart,
                                                                  pieces, start, isNumber);
      counter := counter + 1;
      k := k + 1;
    }
  }

  /** Reads the character at `k`: a space or an operator flushes the buffered
      token and adds the operator's tag; any other character is buffered. */
  method ReadChar(text: string, k: nat, semantics: seq<Tag>, reactionIds: seq<string>, lastPart: string,
                  ghost pieces: seq<Lexeme>, ghost start: nat, isNumber: string -> bool)
    returns (semantics': seq<Tag>, reactionIds': seq<string>, lastPart': string,
             ghost pieces': seq<Lexeme>, ghost start': nat)
    requires k < |text| && Scan(pieces, start) == ScanState(text, k)
    requires start <= k && lastPart == text[start..k]
    requires semantics == Tags(pieces, isNumber) && reactionIds == ReactionTokens(pieces, isNumber)
    ensures Scan(pieces', start') == ScanState(text, k + 1)
    ensures start' <= k + 1 && lastPart' == text[start'..k + 1]
    ensures semantics' == Tags(pieces', isNumber) && reactionIds' == ReactionTokens(pieces', isNumber)
  {
    var c := text[k];
    if c == ' ' || IsOperator(c) {
      semantics', reactionIds', pieces' := ReadBoundary(c, lastPart, semantics, reactionIds, pieces, isNumber);
      start', lastPart' := k + 1, "";
      assert ScanState(text, k + 1) == Scan(pieces', k + 1);
    } else {
      assert ScanState(text, k + 1) == ScanState(text, k);
      assert text[start..k + 1] == text[start..k] + [text[k]];
      semantics', reactionIds', pieces', start' := semantics, reactionIds, pieces, start;
      lastPart' := lastPart + [c];
    }
  }

  /** A space or an operator: flush the buffered token, then add the
      separator's tag. */
  method ReadBoundary(c: char, lastPart: string, semantics: seq<Tag>, reactionIds: seq<string>,
                      ghost pieces: seq<Lexeme>, isNumber: string -> bool)
    returns (semantics': seq<Tag>, reactionIds': seq<string>, ghost pieces': seq<Lexeme>)
    requires IsSeparator(c)
    requires semantics == Tags(pieces, isNumber) && reactionIds == ReactionTokens(pieces, isNumber)
    ensures pieces' == pieces + WordPieces(lastPart) + SeparatorPieces(c)
    ensures semantics' == Tags(pieces', isNumber) && reactionIds' == ReactionTokens(pieces', isNumber)
  {
    semantics', reactionIds', pieces' := FlushWord(lastPart, semantics, reactionIds, pieces, isNumber);
    semantics', pieces' := ReadSeparator(c, semantics', pieces', isNumber);
  }

  /** The tag of a separator: the three operator kinds add theirs, a space
      adds nothing. */
  method ReadSeparator(c: char, semantics: seq<Tag>, ghost pieces: seq<Lexeme>, isNumber: string -> bool)
    returns (semantics': seq<Tag>, ghost pieces': seq<Lexeme>)
    requires IsSeparator(c)
    requires semantics == Tags(pieces, isNumber)
    ensures pieces' == pieces + SeparatorPieces(c)
    ensures semantics' == Tags(pieces', isNumber)
    ensures ReactionTokens(pieces', isNumber) == ReactionTokens(pieces, isNumber)
  {
    if c == '*' {
      semantics' := semantics + [Multiplication];
    } else if c == '/' {
      semantics' := semantics + [Division];
    } else if c == '+' || c == '-' {
      semantics' := semantics + [Dash];
    } else {
      semantics' := semantics;
    }
    if IsOperator(c) {
      pieces' := Appended(pieces, Operator(c), isNumber);
    } else {
      pieces' := pieces;
    }
  }

  /** Flushes the buffered token: a number adds its tag, anything else adds
      the reaction tag and its text to the reaction identifiers. */
  method FlushWord(lastPart: string, semantics: seq<Tag>, reactionIds: seq<string>,
                   ghost pieces: seq<Lexeme>, isNumber: string -> bool)
    returns (semantics': seq<Tag>, reactionIds': seq<string>, ghost pieces': seq<Lexeme>)
    requires semantics == Tags(pieces, isNumber)
    requires reactionIds == ReactionTokens(pieces, isNumber)
    ensures pieces' == pieces + WordPieces(lastPart)
    ensures semantics' == Tags(pieces', isNumber)
    ensures reactionIds' == ReactionTokens(pieces', isNumber)
  {
    semantics', reactionIds', pieces' := semantics, reactionIds, pieces;
    if lastPart != "" {
      if isNumber(lastPart) {
        semantics' := semantics' + [Number];
      } else {
        reactionIds' := reactionIds' + [lastPart];
        semantics' := semantics' + [Reaction];
      }
      pieces' := Appended(pieces, Operand(lastPart), isNumber);
    }
  }

  /** Appending one piece adds its tag, and its text when it is a reaction. */
  ghost function Appended(ls: seq<Lexeme>, l: Lexeme, isNumber: string -> bool): (r: seq<Lexeme>)
    ensures r == ls + [l]
    ensures Tags(r, isNumber) == Tags(ls, isNumber) + [TagOf(l, isNumber)]
    ensures ReactionTokens(r, isNumber) == ReactionTokens(ls, isNumber)
      + (if l.Operand? && !isNumber(l.text) then [l.text] else [])
  {
    assert (ls + [l])[..|ls|] == ls;
    ls + [l]
  }
}
