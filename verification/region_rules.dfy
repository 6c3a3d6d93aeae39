/** The rule checks of `check_left_mcs_equation`: the tag sequence is scanned
    once with a rolling memory of the last two tags, every broken rule adds
    one line to an accumulated report, and unknown reaction identifiers are
    reported last. An empty report means the expression is accepted. */
module RegionRules {
  import opened RegionTokens

  /** One line of the report, one constructor per message of the dialog. */
  datatype ErrorLine =
    | NoReactionId
    | MoreThanOneDivision
    | StartsWithMulDiv
    | MulDivAfterMulDiv
    | MulDivAfterDash
    | ReactionAfterNumber
    | ReactionAfterReaction
    | NumberAfterNumber
    | ReactionsMultiplied
    | EndsWithOperator
    | EndsWithSeparatedNumber
    | UnknownReaction(id: string)

  /** The message text for one line. Four of the messages carry no final
      line break in the dialog, so the next message continues on their line. */
  function Message(e: ErrorLine, equation: string): string {
    var head := "ERROR in " + equation + ":\n";
    match e
    case NoReactionId => "EQUATION ERROR in " + equation + ":\nNo reaction ID is given in the equation\n"
    case MoreThanOneDivision => head + "An equation must not have more than one /"
    case StartsWithMulDiv => head + "An equation must not start with * or /"
    case MulDivAfterMulDiv => head + "* or / must not follow on * or /\n"
    case MulDivAfterDash => head + "* or / must not follow on + or -\n"
    case ReactionAfterNumber =>
      head + "A reaction must not directly follow on a number without a mathematical operation\n"
    case ReactionAfterReaction => head + "A reaction must not follow on a reaction ID\n"
    case NumberAfterNumber => head + "A number must not follow on a number ID\n"
    case ReactionsMultiplied => head + "Two reactions must not be multiplied together\n"
    case EndsWithOperator => head + "A reaction must not end with a +, -, * or /"
    case EndsWithSeparatedNumber => head + "A reaction must not end with a separated number term only"
    case UnknownReaction(id) => head + "A reaction with the ID " + id + " does not exist in the model\n"
  }

  /** The lines rendered one by one and concatenated in order. */
  function Joined(lines: seq<ErrorLine>, render: ErrorLine -> string): string {
    if lines == [] then ""
    else Joined(lines[..|lines| - 1], render) + render(lines[|lines| - 1])
  }

  /** The report: the messages of the lines, concatenated in order. */
  function ErrorText(lines: seq<ErrorLine>, equation: string): string {
    Joined(lines, e => Message(e, equation))
  }

  predicate IsMulDiv(t: Tag) {
    t == Multiplication || t == Division
  }

  /** Whether the rule behind `rule` is broken by the tag window ending at
      position `i`. Only the rules checked during the scan are defined here. */
  predicate Fires(rule: ErrorLine, t: seq<Tag>, i: nat)
    requires i < |t|
  {
    match rule
    case StartsWithMulDiv => i == 0 && IsMulDiv(t[i])
    case MulDivAfterMulDiv => i > 0 && IsMulDiv(t[i - 1]) && IsMulDiv(t[i])
    case MulDivAfterDash => i > 0 && t[i - 1] == Dash && IsMulDiv(t[i])
    case ReactionAfterNumber => i > 0 && t[i - 1] == Number && t[i] == Reaction
    case ReactionAfterReaction => i > 0 && t[i - 1] == Reaction && t[i] == Reaction
    case NumberAfterNumber => i > 0 && t[i - 1] == Number && t[i] == Number
    case ReactionsMultiplied =>
      i > 1 && t[i - 2] == Reaction && t[i - 1] == Multiplication && t[i] == Reaction
    case _ => false
  }

  function Emit(rule: ErrorLine, t: seq<Tag>, i: nat): seq<ErrorLine>
    requires i < |t|
  {
    if Fires(rule, t, i) then [rule] else []
  }

  /** The rules checked at every position of the scan, in the dialog's order. */
  const WindowRules: seq<ErrorLine> := [StartsWithMulDiv, MulDivAfterMulDiv, MulDivAfterDash,
    ReactionAfterNumber, ReactionAfterReaction, NumberAfterNumber, ReactionsMultiplied]

  /** The lines that `rules` add at position `i`, in the order of `rules`. */
  function EmitAll(rules: seq<ErrorLine>, t: seq<Tag>, i: nat): seq<ErrorLine>
    requires i < |t|
  {
    if rules == [] then []
    else EmitAll(rules[..|rules| - 1], t, i) + Emit(rules[|rules| - 1], t, i)
  }

  /** The lines added while the scan is at position `i`. */
  function StepLines(t: seq<Tag>, i: nat): seq<ErrorLine>
    requires i < |t|
  {
    EmitAll(WindowRules, t, i)
  }

  /** The lines added by the scan over the first `n` tags. */
  function ScanLines(t: seq<Tag>, n: nat): seq<ErrorLine>
    requires n <= |t|
  {
    if n == 0 then [] else ScanLines(t, n - 1) + StepLines(t, n - 1)
  }

  /** The two checks made on the whole sequence before the scan. */
  function GlobalLines(t: seq<Tag>): seq<ErrorLine> {
    (if Reaction !in t then [NoReactionId] else [])
      + (if multiset(t)[Division] > 1 then [MoreThanOneDivision] else [])
  }

  /** The two checks made on the last tags after the scan. */
  function EndLines(t: seq<Tag>): seq<ErrorLine> {
    (if |t| > 0 && (t[|t| - 1] == Dash || IsMulDiv(t[|t| - 1])) then [EndsWithOperator] else [])
      + (if |t| > 1 && t[|t| - 2] == Dash && t[|t| - 1] == Number then [EndsWithSeparatedNumber] else [])
  }

  /** One line per reaction token that is not a reaction of the model. */
  function UnknownLines(ids: seq<string>, modelIds: seq<string>): seq<ErrorLine> {
    if ids == [] then []
    else
      var id := ids[|ids| - 1];
      UnknownLines(ids[..|ids| - 1], modelIds)
        + (if id !in modelIds then [UnknownReaction(id)] else [])
  }

  function TagLines(t: seq<Tag>, ids: seq<string>, modelIds: seq<string>): seq<ErrorLine> {
    GlobalLines(t) + ScanLines(t, |t|) + EndLines(t) + UnknownLines(ids, modelIds)
  }

  /** The report lines for a left-hand side, against the model's reaction IDs. */
  function LeftErrors(equation: string, modelIds: seq<string>, isNumber: string -> bool): seq<ErrorLine> {
    var pieces := Lex(equation);
    TagLines(Tags(pieces, isNumber), ReactionTokens(pieces, isNumber), modelIds)
  }

  function LeftErrorText(equation: string, modelIds: seq<string>, isNumber: string -> bool): string {
    ErrorText(LeftErrors(equation, modelIds, isNumber), equation)
  }

  /** Two adjacent tags that no rule objects to. */
  predicate PairAllowed(a: Tag, b: Tag) {
    && !(IsMulDiv(a) && IsMulDiv(b))
    && !(a == Dash && IsMulDiv(b))
    && !(a == Number && b == Reaction)
    && !(a == Reaction && b == Reaction)
    && !(a == Number && b == Number)
  }

  /** The shape of an accepted expression, stated on the tag sequence. */
  predicate WellFormedTags(t: seq<Tag>) {
    && Reaction in t
    && multiset(t)[Division] <= 1
    && (|t| > 0 ==> !IsMulDiv(t[0]))
    && (forall i :: 0 < i < |t| ==> PairAllowed(t[i - 1], t[i]))
    && (forall i :: 1 < i < |t| ==> !(t[i - 2] == Reaction && t[i - 1] == Multiplication && t[i] == Reaction))
    && (|t| > 0 ==> t[|t| - 1] == Reaction || t[|t| - 1] == Number)
    && !(|t| > 1 && t[|t| - 2] == Dash && t[|t| - 1] == Number)
  }

  /** An accepted left-hand side: well-formed, and every reaction token names
      a reaction of the model. */
  predicate ValidLeft(equation: string, modelIds: seq<string>, isNumber: string -> bool) {
    var pieces := Lex(equation);
    && WellFormedTags(Tags(pieces, isNumber))
    && forall id :: id in ReactionTokens(pieces, isNumber) ==> id in modelIds
  }

  // ---------------------------------------------------------------------
  // Properties of the report

  lemma {:induction false} JoinedAppend(a: seq<ErrorLine>, b: seq<ErrorLine>, render: ErrorLine -> string)
    ensures Joined(a + b, render) == Joined(a, render) + Joined(b, render)
    decreases |b|
  {
    if b == [] {
      assert a + b == a;
    } else {
      var init := b[..|b| - 1];
      assert (a + b)[..|a + b| - 1] == a + init;
      JoinedAppend(a, init, render);
    }
  }

  lemma ErrorTextAppend(a: seq<ErrorLine>, b: seq<ErrorLine>, equation: string)
    ensures ErrorText(a + b, equation) == ErrorText(a, equation) + ErrorText(b, equation)
  {
    JoinedAppend(a, b, e => Message(e, equation));
  }

  lemma AddLine(lines: seq<ErrorLine>, e: ErrorLine, equation: string)
    ensures ErrorText(lines + [e], equation) == ErrorText(lines, equation) + Message(e, equation)
  {
    assert (lines + [e])[..|lines|] == lines;
  }

  /** Every message is non-empty, so the report is empty exactly when no
      line was added. */
  lemma ErrorTextEmpty(lines: seq<ErrorLine>, equation: string)
    ensures ErrorText(lines, equation) == "" <==> lines == []
  {
    if lines != [] {
      var e := lines[|lines| - 1];
      assert |Message(e, equation)| > 0;
    }
  }

  /** How often `e` occurs among the report lines. */
  function Occurrences(lines: seq<ErrorLine>, e: ErrorLine): nat {
    if lines == [] then 0
    else Occurrences(lines[..|lines| - 1], e) + (if lines[|lines| - 1] == e then 1 else 0)
  }

  lemma {:induction false} OccurrencesAppend(a: seq<ErrorLine>, b: seq<ErrorLine>, e: ErrorLine)
    ensures Occurrences(a + b, e) == Occurrences(a, e) + Occurrences(b, e)
    decreases |b|
  {
    if b == [] {
      assert a + b == a;
    } else {
      var init := b[..|b| - 1];
      assert (a + b)[..|a + b| - 1] == a + init;
      OccurrencesAppend(a, init, e);
    }
  }

  /** The occurrence count is the multiplicity in the multiset of lines. */
  lemma {:induction false} OccurrencesIsMultiplicity(lines: seq<ErrorLine>, e: ErrorLine)
    ensures Occurrences(lines, e) == multiset(lines)[e]
  {
    if lines != [] {
      var init := lines[..|lines| - 1];
      OccurrencesIsMultiplicity(init, e);
      assert lines == init + [lines[|lines| - 1]];
    }
  }

  lemma AtMostOneLine(lines: seq<ErrorLine>, e: ErrorLine)
    requires |lines| <= 1
    ensures Occurrences(lines, e) == if lines == [e] then 1 else 0
  {
    if lines != [] {
      assert lines[..0] == [];
    }
  }

  lemma EmitCount(rule: ErrorLine, t: seq<Tag>, i: nat, e: ErrorLine)
    requires i < |t|
    ensures Occurrences(Emit(rule, t, i), e) == if rule == e && Fires(rule, t, i) then 1 else 0
  {
    if Fires(rule, t, i) {
      assert Emit(rule, t, i)[..0] == [];
    }
  }

  /** A prefix of a rule list adds the lines of one rule fewer. */
  lemma EmitAllPrefix(rules: seq<ErrorLine>, k: nat, t: seq<Tag>, i: nat)
    requires k < |rules| && i < |t|
    ensures EmitAll(rules[..k + 1], t, i) == EmitAll(rules[..k], t, i) + Emit(rules[k], t, i)
  {
    assert rules[..k + 1][..k] == rules[..k];
  }

  /** The lines at one position, rule by rule in the dialog's order. */
  lemma StepLinesUnrolled(t: seq<Tag>, i: nat)
    requires i < |t|
    ensures StepLines(t, i) ==
      Emit(StartsWithMulDiv, t, i) + Emit(MulDivAfterMulDiv, t, i) + Emit(MulDivAfterDash, t, i)
        + Emit(ReactionAfterNumber, t, i) + Emit(ReactionAfterReaction, t, i)
        + Emit(NumberAfterNumber, t, i) + Emit(ReactionsMultiplied, t, i)
  {
    var r := WindowRules;
    assert r[..0] == [];
    EmitAllPrefix(r, 0, t, i);
    EmitAllPrefix(r, 1, t, i);
    EmitAllPrefix(r, 2, t, i);
    EmitAllPrefix(r, 3, t, i);
    EmitAllPrefix(r, 4, t, i);
    EmitAllPrefix(r, 5, t, i);
    EmitAllPrefix(r, 6, t, i);
    assert r[..7] == r;
  }

  /** Rules listed without repetition each add at most their own line. */
  lemma {:induction false} EmitAllCount(rules: seq<ErrorLine>, t: seq<Tag>, i: nat, e: ErrorLine)
    requires i < |t|
    requires forall j, k :: 0 <= j < k < |rules| ==> rules[j] != rules[k]
    ensures Occurrences(EmitAll(rules, t, i), e) == if e in rules && Fires(e, t, i) then 1 else 0
  {
    if rules != [] {
      var init, last := rules[..|rules| - 1], rules[|rules| - 1];
      assert e in rules <==> e in init || e == last by {
        assert rules == init + [last];
      }
      EmitAllCount(init, t, i, e);
      EmitCount(last, t, i, e);
      OccurrencesAppend(EmitAll(init, t, i), Emit(last, t, i), e);
    }
  }

  /** At each position a rule's line is added once if its window is broken
      there, and not at all otherwise. */
  lemma StepLinesCount(t: seq<Tag>, i: nat, e: ErrorLine)
    requires i < |t|
    ensures Occurrences(StepLines(t, i), e) == if Fires(e, t, i) then 1 else 0
  {
    EmitAllCount(WindowRules, t, i, e);
  }

  /** How many of the first `n` windows break `rule`. */
  function FiringCount(rule: ErrorLine, t: seq<Tag>, n: nat): nat
    requires n <= |t|
  {
    if n == 0 then 0 else FiringCount(rule, t, n - 1) + (if Fires(rule, t, n - 1) then 1 else 0)
  }

  /** A rule's count is positive exactly when some window breaks it. */
  lemma {:induction false} FiringCountPositive(rule: ErrorLine, t: seq<Tag>, n: nat)
    requires n <= |t|
    ensures FiringCount(rule, t, n) > 0 <==> exists i :: 0 <= i < n && Fires(rule, t, i)
  {
    if n > 0 {
      FiringCountPositive(rule, t, n - 1);
    }
  }

  /** The scan adds exactly one line per broken window: a rule's line occurs
      as many times as there are positions where it fires. */
  lemma {:induction false} ScanLinesCount(t: seq<Tag>, n: nat, e: ErrorLine)
    requires n <= |t|
    ensures Occurrences(ScanLines(t, n), e) == FiringCount(e, t, n)
  {
    if n > 0 {
      ScanLinesCount(t, n - 1, e);
      StepLinesCount(t, n - 1, e);
      OccurrencesAppend(ScanLines(t, n - 1), StepLines(t, n - 1), e);
    }
  }

  /** An identifier the model lacks is reported once per occurrence. */
  lemma {:induction false} UnknownLinesCountMissing(ids: seq<string>, modelIds: seq<string>, x: string)
    requires x !in modelIds
    ensures Occurrences(UnknownLines(ids, modelIds), UnknownReaction(x)) == multiset(ids)[x]
    decreases |ids|
  {
    if ids != [] {
      var init, last := ids[..|ids| - 1], ids[|ids| - 1];
      var tail := if last !in modelIds then [UnknownReaction(last)] else [];
      assert multiset(ids) == multiset(init) + multiset{last} by {
        assert ids == init + [last];
      }
      UnknownLinesCountMissing(init, modelIds, x);
      OccurrencesAppend(UnknownLines(init, modelIds), tail, UnknownReaction(x));
      AtMostOneLine(tail, UnknownReaction(x));
    }
  }

  /** An identifier the model has is never reported. */
  lemma {:induction false} UnknownLinesCountKnown(ids: seq<string>, modelIds: seq<string>, x: string)
    requires x in modelIds
    ensures Occurrences(UnknownLines(ids, modelIds), UnknownReaction(x)) == 0
    decreases |ids|
  {
    if ids != [] {
      var init, last := ids[..|ids| - 1], ids[|ids| - 1];
      var tail := if last !in modelIds then [UnknownReaction(last)] else [];
      UnknownLinesCountKnown(init, modelIds, x);
      OccurrencesAppend(UnknownLines(init, modelIds), tail, UnknownReaction(x));
      AtMostOneLine(tail, UnknownReaction(x));
    }
  }

  /** Lines that are not unknown-reaction lines never come from the lookup. */
  lemma {:induction false} UnknownLinesOnlyUnknown(ids: seq<string>, modelIds: seq<string>, e: ErrorLine)
    requires !e.UnknownReaction?
    ensures Occurrences(UnknownLines(ids, modelIds), e) == 0
    decreases |ids|
  {
    if ids != [] {
      var init := ids[..|ids| - 1];
      var last := ids[|ids| - 1];
      UnknownLinesOnlyUnknown(init, modelIds, e);
      OccurrencesAppend(UnknownLines(init, modelIds),
        if last !in modelIds then [UnknownReaction(last)] else [], e);
    }
  }

  predicate IsWindowRule(e: ErrorLine) {
    e.StartsWithMulDiv? || e.MulDivAfterMulDiv? || e.MulDivAfterDash? || e.ReactionAfterNumber?
      || e.ReactionAfterReaction? || e.NumberAfterNumber? || e.ReactionsMultiplied?
  }

  lemma {:induction false} NotWindowRule(e: ErrorLine, t: seq<Tag>, n: nat)
    requires n <= |t| && !IsWindowRule(e)
    ensures FiringCount(e, t, n) == 0
  {
    if n > 0 {
      NotWindowRule(e, t, n - 1);
    }
  }

  /** A line's count in the report is the sum of its counts in the four
      parts: the whole-sequence checks, the scan, the end checks, the lookup. */
  lemma TagLinesSegments(t: seq<Tag>, ids: seq<string>, modelIds: seq<string>, e: ErrorLine)
    ensures Occurrences(TagLines(t, ids, modelIds), e) ==
      Occurrences(GlobalLines(t), e) + FiringCount(e, t, |t|) + Occurrences(EndLines(t), e)
        + Occurrences(UnknownLines(ids, modelIds), e)
  {
    var g, w, d, u := GlobalLines(t), ScanLines(t, |t|), EndLines(t), UnknownLines(ids, modelIds);
    ScanLinesCount(t, |t|, e);
    OccurrencesAppend(g, w, e);
    OccurrencesAppend(g + w, d, e);
    OccurrencesAppend(g + w + d, u, e);
  }

  /** Occurrences in a part of the report made of two optional lines. */
  lemma OptionalLines(a: seq<ErrorLine>, b: seq<ErrorLine>, e: ErrorLine)
    requires |a| <= 1 && |b| <= 1
    ensures Occurrences(a + b, e) == (if a == [e] then 1 else 0) + (if b == [e] then 1 else 0)
  {
    OccurrencesAppend(a, b, e);
    if a != [] {
      assert a[..0] == [];
    }
    if b != [] {
      assert b[..0] == [];
    }
  }

  /** The checks before the scan add "no reaction ID" when no tag is a
      reaction and "more than one /" when two or more tags are divisions. */
  lemma GlobalLinesCount(t: seq<Tag>, e: ErrorLine)
    ensures Occurrences(GlobalLines(t), e) ==
      (if e == NoReactionId && Reaction !in t then 1 else 0)
        + (if e == MoreThanOneDivision && multiset(t)[Division] > 1 then 1 else 0)
  {
    OptionalLines(if Reaction !in t then [NoReactionId] else [],
      if multiset(t)[Division] > 1 then [MoreThanOneDivision] else [], e);
  }

  /** The checks after the scan look at the last one or two tags only. */
  lemma EndLinesCount(t: seq<Tag>, e: ErrorLine)
    ensures Occurrences(EndLines(t), e) ==
      (if e == EndsWithOperator && |t| > 0 && (t[|t| - 1] == Dash || IsMulDiv(t[|t| - 1])) then 1 else 0)
        + (if e == EndsWithSeparatedNumber && |t| > 1 && t[|t| - 2] == Dash && t[|t| - 1] == Number then 1 else 0)
  {
    OptionalLines(
      if |t| > 0 && (t[|t| - 1] == Dash || IsMulDiv(t[|t| - 1])) then [EndsWithOperator] else [],
      if |t| > 1 && t[|t| - 2] == Dash && t[|t| - 1] == Number then [EndsWithSeparatedNumber] else [], e);
  }

  /** How often a line occurs in the whole report: the four parts of the
      check, each counted by its own rule. Lines accumulate; nothing stops the
      check at the first broken rule. */
  lemma ReportCount(t: seq<Tag>, ids: seq<string>, modelIds: seq<string>, e: ErrorLine)
    ensures Occurrences(TagLines(t, ids, modelIds), e) ==
      (if e == NoReactionId && Reaction !in t then 1 else 0)
        + (if e == MoreThanOneDivision && multiset(t)[Division] > 1 then 1 else 0)
        + FiringCount(e, t, |t|)
        + (if e == EndsWithOperator && |t| > 0 && (t[|t| - 1] == Dash || IsMulDiv(t[|t| - 1])) then 1 else 0)
        + (if e == EndsWithSeparatedNumber && |t| > 1 && t[|t| - 2] == Dash && t[|t| - 1] == Number then 1 else 0)
        + (if e.UnknownReaction? && e.id !in modelIds then multiset(ids)[e.id] else 0)
  {
    TagLinesSegments(t, ids, modelIds, e);
    GlobalLinesCount(t, e);
    EndLinesCount(t, e);
    if e.UnknownReaction? && e.id in modelIds {
      UnknownLinesCountKnown(ids, modelIds, e.id);
    } else if e.UnknownReaction? {
      UnknownLinesCountMissing(ids, modelIds, e.id);
    } else {
      UnknownLinesOnlyUnknown(ids, modelIds, e);
    }
  }

  /** The two whole-sequence rules each add their line at most once: "no
      reaction ID" exactly when no token is a reaction, "more than one /"
      exactly when there are two or more divisions. */
  lemma GlobalRulesCount(t: seq<Tag>, ids: seq<string>, modelIds: seq<string>)
    ensures Occurrences(TagLines(t, ids, modelIds), NoReactionId) == if Reaction in t then 0 else 1
    ensures Occurrences(TagLines(t, ids, modelIds), MoreThanOneDivision) ==
      if multiset(t)[Division] > 1 then 1 else 0
  {
    ReportCount(t, ids, modelIds, NoReactionId);
    NotWindowRule(NoReactionId, t, |t|);
    ReportCount(t, ids, modelIds, MoreThanOneDivision);
    NotWindowRule(MoreThanOneDivision, t, |t|);
  }

  /** Each window rule adds one line per position where its window matches. */
  lemma WindowRuleCount(t: seq<Tag>, ids: seq<string>, modelIds: seq<string>, e: ErrorLine)
    requires IsWindowRule(e)
    ensures Occurrences(TagLines(t, ids, modelIds), e) == FiringCount(e, t, |t|)
  {
    ReportCount(t, ids, modelIds, e);
  }

  /** The two end rules each add their line at most once, decided by the last
      one or two tags. */
  lemma EndRulesCount(t: seq<Tag>, ids: seq<string>, modelIds: seq<string>)
    ensures Occurrences(TagLines(t, ids, modelIds), EndsWithOperator) ==
      if |t| > 0 && (t[|t| - 1] == Dash || IsMulDiv(t[|t| - 1])) then 1 else 0
    ensures Occurrences(TagLines(t, ids, modelIds), EndsWithSeparatedNumber) ==
      if |t| > 1 && t[|t| - 2] == Dash && t[|t| - 1] == Number then 1 else 0
  {
    ReportCount(t, ids, modelIds, EndsWithOperator);
    NotWindowRule(EndsWithOperator, t, |t|);
    ReportCount(t, ids, modelIds, EndsWithSeparatedNumber);
    NotWindowRule(EndsWithSeparatedNumber, t, |t|);
  }

  /** An identifier is reported as unknown once per occurrence among the
      reaction tokens when the model lacks it, and never otherwise. */
  lemma UnknownReactionCount(t: seq<Tag>, ids: seq<string>, modelIds: seq<string>, x: string)
    ensures Occurrences(TagLines(t, ids, modelIds), UnknownReaction(x)) ==
      if x in modelIds then 0 else multiset(ids)[x]
  {
    ReportCount(t, ids, modelIds, UnknownReaction(x));
    NotWindowRule(UnknownReaction(x), t, |t|);
  }

  lemma {:induction false} ScanLinesEmpty(t: seq<Tag>, n: nat)
    requires n <= |t|
    ensures ScanLines(t, n) == [] <==> forall i :: 0 <= i < n ==> StepLines(t, i) == []
  {
    if n > 0 {
      ScanLinesEmpty(t, n - 1);
    }
  }

  lemma {:induction false} UnknownLinesEmpty(ids: seq<string>, modelIds: seq<string>)
    ensures UnknownLines(ids, modelIds) == [] <==> forall id :: id in ids ==> id in modelIds
    decreases |ids|
  {
    if ids != [] {
      var init := ids[..|ids| - 1];
      UnknownLinesEmpty(init, modelIds);
      assert ids == init + [ids[|ids| - 1]];
    }
  }

  /** The rules listed add nothing exactly when none of them fires. */
  lemma {:induction false} EmitAllEmpty(rules: seq<ErrorLine>, t: seq<Tag>, i: nat)
    requires i < |t|
    ensures EmitAll(rules, t, i) == [] <==> forall r :: r in rules ==> !Fires(r, t, i)
  {
    if rules != [] {
      var init, last := rules[..|rules| - 1], rules[|rules| - 1];
      EmitAllEmpty(init, t, i);
      assert rules == init + [last];
    }
  }

  /** The window ending at position `i` breaks none of the scan's rules. */
  predicate WindowOk(t: seq<Tag>, i: nat)
    requires i < |t|
  {
    && !(i == 0 && IsMulDiv(t[i]))
    && (i > 0 ==> PairAllowed(t[i - 1], t[i]))
    && !(i > 1 && t[i - 2] == Reaction && t[i - 1] == Multiplication && t[i] == Reaction)
  }

  lemma StepLinesEmpty(t: seq<Tag>, i: nat)
    requires i < |t|
    ensures StepLines(t, i) == [] <==> WindowOk(t, i)
  {
    EmitAllEmpty(WindowRules, t, i);
    if WindowOk(t, i) {
      forall r | r in WindowRules ensures !Fires(r, t, i) {
        var j :| 0 <= j < |WindowRules| && WindowRules[j] == r;
      }
    } else if i == 0 && IsMulDiv(t[i]) {
      assert Fires(WindowRules[0], t, i);
    } else if i > 1 && t[i - 2] == Reaction && t[i - 1] == Multiplication && t[i] == Reaction {
      assert Fires(WindowRules[6], t, i);
    } else {
      assert i > 0 && !PairAllowed(t[i - 1], t[i]);
      if IsMulDiv(t[i - 1]) && IsMulDiv(t[i]) {
        assert Fires(WindowRules[1], t, i);
      } else if t[i - 1] == Dash && IsMulDiv(t[i]) {
        assert Fires(WindowRules[2], t, i);
      } else if t[i - 1] == Number && t[i] == Reaction {
        assert Fires(WindowRules[3], t, i);
      } else if t[i - 1] == Reaction && t[i] == Reaction {
        assert Fires(WindowRules[4], t, i);
      } else {
        assert Fires(WindowRules[5], t, i);
      }
    }
  }

  /** The scan adds nothing exactly when every window is fine. */
  lemma ScanLinesEmptyIff(t: seq<Tag>)
    ensures ScanLines(t, |t|) == [] <==> forall i :: 0 <= i < |t| ==> WindowOk(t, i)
  {
    ScanLinesEmpty(t, |t|);
    forall i | 0 <= i < |t| {
      StepLinesEmpty(t, i);
    }
  }

  /** Every window is fine exactly when the windowed clauses of the accepted
      shape hold. */
  lemma WindowsOkIff(t: seq<Tag>)
    ensures (forall i :: 0 <= i < |t| ==> WindowOk(t, i)) <==>
      && (|t| > 0 ==> !IsMulDiv(t[0]))
      && (forall i :: 0 < i < |t| ==> PairAllowed(t[i - 1], t[i]))
      && (forall i :: 1 < i < |t| ==> !(t[i - 2] == Reaction && t[i - 1] == Multiplication && t[i] == Reaction))
  {
    if forall i :: 0 <= i < |t| ==> WindowOk(t, i) {
      if |t| > 0 {
        assert WindowOk(t, 0);
      }
      forall i | 0 < i < |t| ensures PairAllowed(t[i - 1], t[i]) {
        assert WindowOk(t, i);
      }
      forall i | 1 < i < |t|
        ensures !(t[i - 2] == Reaction && t[i - 1] == Multiplication && t[i] == Reaction)
      {
        assert WindowOk(t, i);
      }
    }
  }

  lemma GlobalLinesEmpty(t: seq<Tag>)
    ensures GlobalLines(t) == [] <==> Reaction in t && multiset(t)[Division] <= 1
  {
  }

  lemma EndLinesEmpty(t: seq<Tag>)
    ensures EndLines(t) == [] <==>
      && (|t| > 0 ==> t[|t| - 1] == Reaction || t[|t| - 1] == Number)
      && !(|t| > 1 && t[|t| - 2] == Dash && t[|t| - 1] == Number)
  {
  }

  /** No line at all exactly when the tag sequence is well-formed and every
      reaction token is known to the model. */
  lemma TagLinesEmptyIff(t: seq<Tag>, ids: seq<string>, modelIds: seq<string>)
    ensures TagLines(t, ids, modelIds) == [] <==>
      WellFormedTags(t) && forall id :: id in ids ==> id in modelIds
  {
    var g, w, d, u := GlobalLines(t), ScanLines(t, |t|), EndLines(t), UnknownLines(ids, modelIds);
    assert TagLines(t, ids, modelIds) == [] <==> g == [] && w == [] && d == [] && u == [] by {
      assert |g + w + d + u| == |g| + |w| + |d| + |u|;
    }
    GlobalLinesEmpty(t);
    ScanLinesEmptyIff(t);
    WindowsOkIff(t);
    EndLinesEmpty(t);
    UnknownLinesEmpty(ids, modelIds);
  }

  /** A left-hand side gets an empty report exactly when it is accepted. */
  lemma LeftErrorTextEmptyIff(equation: string, modelIds: seq<string>, isNumber: string -> bool)
    ensures LeftErrorText(equation, modelIds, isNumber) == "" <==> ValidLeft(equation, modelIds, isNumber)
  {
    var pieces := Lex(equation);
    ErrorTextEmpty(LeftErrors(equation, modelIds, isNumber), equation);
    TagLinesEmptyIff(Tags(pieces, isNumber), ReactionTokens(pieces, isNumber), modelIds);
  }

  /** The report of an expression follows from its tags and reaction tokens. */
  lemma LeftErrorsOfReading(equation: string, t: seq<Tag>, ids: seq<string>, modelIds: seq<string>,
                            isNumber: string -> bool)
    requires Tags(Lex(equation), isNumber) == t && ReactionTokens(Lex(equation), isNumber) == ids
    ensures LeftErrors(equation, modelIds, isNumber) == TagLines(t, ids, modelIds)
  {
  }

  /** Counted on the text: "more than one /" is reported, once, exactly
      when the expression holds two or more `/` characters. */
  lemma SlashesReported(equation: string, modelIds: seq<string>, isNumber: string -> bool)
    ensures Occurrences(LeftErrors(equation, modelIds, isNumber), MoreThanOneDivision)
      == if multiset(equation)['/'] > 1 then 1 else 0
  {
    var pieces := Lex(equation);
    DivisionTagsCountSlashes(equation, isNumber);
    GlobalRulesCount(Tags(pieces, isNumber), ReactionTokens(pieces, isNumber), modelIds);
  }

  /** The rules over a lone reaction token. */
  lemma LinesOfSingleReaction(id: string, modelIds: seq<string>)
    ensures TagLines([Reaction], [id], modelIds) == if id in modelIds then [] else [UnknownReaction(id)]
  {
    var t := [Reaction];
    assert multiset(t)[Division] == 0;
    assert GlobalLines(t) == [] && EndLines(t) == [];
    StepLinesEmpty(t, 0);
    assert ScanLines(t, 1) == [];
    assert [id][..0] == [];
    assert UnknownLines([id], modelIds) == if id in modelIds then [] else [UnknownReaction(id)];
  }

  /** A lone identifier of the model is accepted. */
  lemma SingleReactionAccepted(r: string, modelIds: seq<string>, isNumber: string -> bool)
    requires r != [] && IsWord(r)
    requires !isNumber(r) && r in modelIds
    ensures LeftErrorText(r, modelIds, isNumber) == ""
  {
    LexWord(r);
    TagsSnoc([], Operand(r), isNumber);
    assert [] + [Operand(r)] == [Operand(r)];
    LeftErrorsOfReading(r, [Reaction], [r], modelIds, isNumber);
    LinesOfSingleReaction(r, modelIds);
    ErrorTextEmpty(LeftErrors(r, modelIds, isNumber), r);
  }

  // ---------------------------------------------------------------------
  // The check as the dialog runs it

  /** The left-hand-side check: tokenise, then check the tags and the
      reaction tokens. The report is accumulated line by line in the dialog's
      order and rendered once at the end. */
  method CheckLeftMcsEquation(equation: string, modelReactionIds: seq<string>, isNumber: string -> bool)
    returns (errors: string)
    ensures errors == LeftErrorText(equation, modelReactionIds, isNumber)
  {
    var semantics, reactionIds := Tokenize(equation, isNumber);
    ReactionTokensMatchTags(Lex(equation), isNumber);
    var lines := CheckTags(semantics, reactionIds, modelReactionIds);
    errors := ErrorText(lines, equation);
  }

  /** The checks on the tokens, in the dialog's order: the two whole-sequence
      rules, the scan with the end checks, and the lookup of every reaction
      token among the model's reaction IDs. */
  method CheckTags(semantics: seq<Tag>, reactionIds: seq<string>, modelReactionIds: seq<string>)
    returns (lines: seq<ErrorLine>)
    requires |reactionIds| == multiset(semantics)[Reaction]
    ensures lines == TagLines(semantics, reactionIds, modelReactionIds)
  {
    lines := [];
    if |reactionIds| == 0 {
      lines := lines + [NoReactionId];
    }
    if multiset(semantics)[Division] > 1 {
      lines := lines + [MoreThanOneDivision];
    }
    var scanned := ScanSemantics(semantics);
    var unknown := LookUpReactions(reactionIds, modelReactionIds);
    lines := lines + scanned + unknown;
  }

  /** The scan over the tags with a rolling memory of the last two, followed
      by the two checks on how the expression ends. */
  method ScanSemantics(semantics: seq<Tag>) returns (lines: seq<ErrorLine>)
    ensures lines == ScanLines(semantics, |semantics|) + EndLines(semantics)
  {
    lines := [];
    var lastIsMultiplication, lastIsDivision, lastIsDash := false, false, false;
    var lastIsReaction, prelastIsReaction, prelastIsDash := false, false, false;
    var lastIsNumber, isStart := false, true;
    for k := 0 to |semantics|
      invariant isStart == (k == 0)
      invariant lastIsMultiplication == (k > 0 && semantics[k - 1] == Multiplication)
      invariant lastIsDivision == (k > 0 && semantics[k - 1] == Division)
      invariant lastIsDash == (k > 0 && semantics[k - 1] == Dash)
      invariant lastIsReaction == (k > 0 && semantics[k - 1] == Reaction)
      invariant lastIsNumber == (k > 0 && semantics[k - 1] == Number)
      invariant prelastIsReaction == (k > 1 && semantics[k - 2] == Reaction)
      invariant prelastIsDash == (k > 1 && semantics[k - 2] == Dash)
      invariant lines == ScanLines(semantics, k)
    {
      var semantic := semantics[k];
      var step := WindowStep(semantics, k, isStart, lastIsMultiplication, lastIsDivision, lastIsDash,
                             lastIsReaction, lastIsNumber, prelastIsReaction);
      isStart := false;
      lines := lines + step;

      prelastIsReaction := lastIsReaction;
      prelastIsDash := lastIsDash;
      lastIsMultiplication, lastIsDivision, lastIsDash, lastIsReaction, lastIsNumber := false, false, false, false, false;
      if semantic == Multiplication {
        lastIsMultiplication := true;
      } else if semantic == Division {
        lastIsDivision := true;
      } else if semantic == Reaction {
        lastIsReaction := true;
      } else if semantic == Dash {
        lastIsDash := true;
      } else if semantic == Number {
        lastIsNumber := true;
      }
    }

    if lastIsDash || lastIsMultiplication || lastIsDivision {
      lines := lines + [EndsWithOperator];
    }
    if prelastIsDash && lastIsNumber {
      lines := lines + [EndsWithSeparatedNumber];
    }
  }

  /** The window rules at position `k`, checked in the dialog's order from
      the flags the scan keeps about the previous two tags. */
  method WindowStep(semantics: seq<Tag>, k: nat, isStart: bool, lastIsMultiplication: bool,
                    lastIsDivision: bool, lastIsDash: bool, lastIsReaction: bool, lastIsNumber: bool,
                    prelastIsReaction: bool)
    returns (step: seq<ErrorLine>)
    requires k < |semantics| && isStart == (k == 0)
    requires lastIsMultiplication == (k > 0 && semantics[k - 1] == Multiplication)
    requires lastIsDivision == (k > 0 && semantics[k - 1] == Division)
    requires lastIsDash == (k > 0 && semantics[k - 1] == Dash)
    requires lastIsReaction == (k > 0 && semantics[k - 1] == Reaction)
    requires lastIsNumber == (k > 0 && semantics[k - 1] == Number)
    requires prelastIsReaction == (k > 1 && semantics[k - 2] == Reaction)
    ensures step == StepLines(semantics, k)
  {
    var semantic := semantics[k];
    // `step` collects the lines of this position; `emitted` is what the
    // rules checked so far prescribe.
    step := [];
    if isStart {
      if semantic == Multiplication || semantic == Division {
        step := step + [StartsWithMulDiv];
      }
    }
    ghost var emitted := Emit(StartsWithMulDiv, semantics, k);
    assert step == emitted;
    if (lastIsMultiplication || lastIsDivision) && (semantic == Multiplication || semantic == Division) {
      step := step + [MulDivAfterMulDiv];
    }
    emitted := emitted + Emit(MulDivAfterMulDiv, semantics, k);
    assert step == emitted;
    if lastIsDash && (semantic == Multiplication || semantic == Division) {
      step := step + [MulDivAfterDash];
    }
    emitted := emitted + Emit(MulDivAfterDash, semantics, k);
    assert step == emitted;
    if lastIsNumber && semantic == Reaction {
      step := step + [ReactionAfterNumber];
    }
    emitted := emitted + Emit(ReactionAfterNumber, semantics, k);
    assert step == emitted;
    if lastIsReaction && semantic == Reaction {
      step := step + [ReactionAfterReaction];
    }
    emitted := emitted + Emit(ReactionAfterReaction, semantics, k);
    assert step == emitted;
    if lastIsNumber && semantic == Number {
      step := step + [NumberAfterNumber];
    }
    emitted := emitted + Emit(NumberAfterNumber, semantics, k);
    assert step == emitted;
    if prelastIsReaction && lastIsMultiplication && semantic == Reaction {
      step := step + [ReactionsMultiplied];
    }
    emitted := emitted + Emit(ReactionsMultiplied, semantics, k);
    assert step == emitted;
    StepLinesUnrolled(semantics, k);
  }

  /** One line per reaction token the model does not have, in token order. */
  method LookUpReactions(reactionIds: seq<string>, modelReactionIds: seq<string>)
    returns (lines: seq<ErrorLine>)
    ensures lines == UnknownLines(reactionIds, modelReactionIds)
  {
    lines := [];
    for k := 0 to |reactionIds|
      invariant lines == UnknownLines(reactionIds[..k], modelReactionIds)
    {
      var reactionId := reactionIds[k];
      assert reactionIds[..k + 1][..k] == reactionIds[..k];
      if reactionId !in modelReactionIds {
        lines := lines + [UnknownReaction(reactionId)];
      }
    }
    assert reactionIds[..|reactionIds|] == reactionIds;
  }
}
