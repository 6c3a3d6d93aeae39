# CNApy MCS dialog: region checks, grouping and result matrix

This project models the logic of CNApy's minimal-cut-set (MCS) dialog. That
logic sits between the tables the user fills in and the enumeration of cut
sets:

- **Left-hand-side check.** A region expression such as `2*R1 - R3/4` is
  scanned character by character into operand tokens and operator tags. A
  token is a *number* when Python's `float()` accepts it and a *reaction*
  otherwise. One pass over the tags, with a rolling memory of the last two,
  applies the start, adjacency, "two reactions multiplied" and end rules.
  Every reaction token is then looked up among the model's reaction IDs.
  The errors accumulate into one report, and `""` means the expression is
  accepted.
- **Right-hand-side check** and the **aggregation** of both over the target
  table and the desired table. Target rows are always checked. Desired rows
  are checked only in the cells that are filled in.
- **Grouping of the table rows into regions.** Rows are grouped by their
  "region no" cell, in the order of each number's first row. Every kept row
  becomes one relation: expression, `"<="` or `">="`, and the bound.
- **The search options.** The exclusive group of search-mode radio buttons,
  the rule that enables "by cardinality" and "continuous search" only for
  CPLEX and Gurobi, and the `enum_method` code handed to the enumeration.
- **The result matrix.** It has one row per cut set and one column per
  reaction, holding `-1.0` on the reactions of the cut set and `0.0`
  elsewhere.

`float()` enters the model as a parameter. The checks take
`isNumber: string -> bool`. The grouping takes `parse: string -> Option<N>`,
which gives the value of a bound or `None` where `float()` raises. The
model's reaction IDs are a `seq<string>`.

Files and modules:

- `wrappers.dfy`: `Option`.
- `region_tokens.dfy` (module `RegionTokens`):
  - the reference reading `Lex` of an expression into operand and operator
    pieces, with its tags;
  - the character scan `Tokenize`, proved equal to that reading.
- `region_rules.dfy` (module `RegionRules`):
  - the report as a sequence of `ErrorLine`s carrying the dialog's exact
    messages;
  - each rule as a window over the tag sequence;
  - the counting and emptiness theorems;
  - the imperative check methods.
- `region_examples.dfy` (module `RegionExamples`): the rules on typical
  expressions, stated for arbitrary reaction and number tokens.
- `region_rows.dfy` (module `RegionRows`): the right-hand-side check, the
  aggregation over both tables, the grouping, and `compute`.
- `cut_set_matrix.dfy` (module `CutSetMatrix`): the result matrix.
- `mcs_dialog.dfy` (module `McsDialog`): the search options as a class.

The grouping keeps every row whose region number and expression are
non-empty (mcs_dialog.py:333 and :354) and calls `float()` on its bound,
which raises on an empty cell. `GroupRegions` and `GroupRegionRows` with
`skipBlankBounds = false` follow that code. `Compute` groups the desired
table with `skipBlankBounds = true`, the corrected behaviour; see Findings.

## Model

| member | source | states |
|---|---|---|
| RegionTokens.OperandLength | cnapy/gui_elements/mcs_dialog.py:426-448 | an operand token is a maximal run: it holds no space or operator, and it ends at the end of the text or at a separator |
| RegionTokens.LexSplit | cnapy/gui_elements/mcs_dialog.py:426-449 | after a separator the rest of the expression is read on its own: the pieces of `p + q` are those of `p` followed by those of `q` |
| RegionTokens.LexWord | cnapy/gui_elements/mcs_dialog.py:447-448 | a run of ordinary characters is one operand token, and no token at all when empty |
| RegionTokens.LexWordThenSeparator | cnapy/gui_elements/mcs_dialog.py:427-448 | a run closed by a separator gives the operand token, then the operator piece, or nothing for a space |
| RegionTokens.LexPiecesWellFormed | cnapy/gui_elements/mcs_dialog.py:426-449 | every operand token is non-empty and free of spaces and operators; every operator piece is one of `*`, `/`, `+`, `-` |
| RegionTokens.LexRendersInput | cnapy/gui_elements/mcs_dialog.py:426-449 | reading loses only the spaces: the pieces written out in order give back the expression without its spaces |
| RegionTokens.ReactionTokensMatchTags | cnapy/gui_elements/mcs_dialog.py:429-435 | `reaction_ids` has as many entries as there are reaction tags, and each is an operand that `float()` rejects |
| RegionTokens.TagsAt | cnapy/gui_elements/mcs_dialog.py:428-446 | the tag at each position of `semantics` is the tag of the piece read there |
| RegionTokens.ReactionTokensInOrder | cnapy/gui_elements/mcs_dialog.py:429-435 | `reaction_ids` matches the reaction tags one for one and in order: a piece is tagged reaction exactly when it is an operand `float()` rejects, and exactly then its text is appended after the tokens before it |
| RegionTokens.TagsAppend | cnapy/gui_elements/mcs_dialog.py:426-449 | `semantics` and `reaction_ids` of two readings one after the other are those of each, concatenated |
| RegionTokens.DivisionTagsCountSlashes | cnapy/gui_elements/mcs_dialog.py:426-449 | `semantics` holds one division tag per `/` character of the expression, and no other |
| RegionTokens.ScanStateReadsLex | cnapy/gui_elements/mcs_dialog.py:426-449 | at every step the pieces flushed by the scan are the reading of the text before the buffer, and the buffer is a run of ordinary characters |
| RegionTokens.ScanReadsEquation | cnapy/gui_elements/mcs_dialog.py:438-439 | when the appended space is reached, the flushed pieces plus the last buffered token are the reading of the whole expression |
| RegionTokens.Tokenize | cnapy/gui_elements/mcs_dialog.py:422-449 | the character loop with `last_part`, `counter` and the early `break` returns the tags and the reaction tokens of the reading `Lex` |
| RegionTokens.ReadChar | cnapy/gui_elements/mcs_dialog.py:427-448 | one character: at a space or operator the buffer is flushed and the operator tagged, any other character is buffered; the scan's state advances by one |
| RegionTokens.ReadBoundary | cnapy/gui_elements/mcs_dialog.py:427-446 | at a space or operator the buffered token is flushed, then the operator's piece is added, with the tags and reaction tokens of both |
| RegionTokens.FlushWord | cnapy/gui_elements/mcs_dialog.py:428-436 | a non-empty buffer adds the number tag, or the reaction tag together with its text in `reaction_ids`; an empty one adds nothing |
| RegionTokens.ReadSeparator | cnapy/gui_elements/mcs_dialog.py:441-446 | `*`, `/`, `+` and `-` add multiplication, division and dash; a space adds no tag; the reaction tokens do not change |
| RegionRules.ErrorTextEmpty | cnapy/gui_elements/mcs_dialog.py:452-524 | every message is non-empty, so the report is empty exactly when no line was added |
| RegionRules.ErrorTextAppend | cnapy/gui_elements/mcs_dialog.py:420-526 | the report of consecutive parts is their reports concatenated in order |
| RegionRules.StepLinesUnrolled | cnapy/gui_elements/mcs_dialog.py:466-483 | at each tag the start rule, the five pair rules and the product rule are tried in the dialog's order |
| RegionRules.StepLinesCount | cnapy/gui_elements/mcs_dialog.py:466-483 | at one position a rule's line appears once if its window matches there and not otherwise |
| RegionRules.ScanLinesCount | cnapy/gui_elements/mcs_dialog.py:465-509 | over the whole pass a rule's line appears once per matching window, so errors accumulate |
| RegionRules.FiringCountPositive | cnapy/gui_elements/mcs_dialog.py:465-509 | a rule's count is positive exactly when some window of the tag sequence matches it |
| RegionRules.GlobalRulesCount | cnapy/gui_elements/mcs_dialog.py:451-455 | "no reaction ID" appears once exactly when no tag is a reaction, "more than one /" once exactly when there are two or more divisions, and never more |
| RegionRules.SlashesReported | cnapy/gui_elements/mcs_dialog.py:426-455 | on the expression itself: "more than one /" is reported, once, exactly when the text holds two or more `/` characters |
| RegionRules.WindowRuleCount | cnapy/gui_elements/mcs_dialog.py:465-509 | each start, pair and product rule contributes one line per window of the tag sequence that matches it |
| RegionRules.EndRulesCount | cnapy/gui_elements/mcs_dialog.py:511-517 | the end rules add their line at most once: after a final `+ - * /`, and after a final dash then number |
| RegionRules.UnknownReactionCount | cnapy/gui_elements/mcs_dialog.py:519-524 | an ID the model lacks is reported once per occurrence among the reaction tokens; a known ID never is |
| RegionRules.UnknownLinesCountMissing | cnapy/gui_elements/mcs_dialog.py:521-524 | the lookup reports an absent ID as often as it occurs among the tokens |
| RegionRules.UnknownLinesCountKnown | cnapy/gui_elements/mcs_dialog.py:521-524 | the lookup never reports an ID the model has |
| RegionRules.UnknownLinesOnlyUnknown | cnapy/gui_elements/mcs_dialog.py:519-524 | the lookup adds only unknown-reaction lines |
| RegionRules.ReportCount | cnapy/gui_elements/mcs_dialog.py:451-524 | how often each line occurs in the report: the sum of the global, window, end and lookup counts |
| RegionRules.TagLinesSegments | cnapy/gui_elements/mcs_dialog.py:451-524 | a line's count in the report is its count in the four parts of the check, in order |
| RegionRules.StepLinesEmpty | cnapy/gui_elements/mcs_dialog.py:466-483 | nothing is added at a position exactly when its window breaks no rule |
| RegionRules.ScanLinesEmptyIff | cnapy/gui_elements/mcs_dialog.py:465-509 | the pass adds nothing exactly when every window is fine |
| RegionRules.WindowsOkIff | cnapy/gui_elements/mcs_dialog.py:465-509 | every window is fine exactly when the first tag is not `*` or `/`, every adjacent pair is allowed, and no reaction `*` reaction triple occurs |
| RegionRules.GlobalLinesEmpty | cnapy/gui_elements/mcs_dialog.py:451-455 | the global checks are silent exactly when there is a reaction and at most one division |
| RegionRules.EndLinesEmpty | cnapy/gui_elements/mcs_dialog.py:511-517 | the end checks are silent exactly when the expression ends with an operand and not with dash then number |
| RegionRules.UnknownLinesEmpty | cnapy/gui_elements/mcs_dialog.py:519-524 | the lookup is silent exactly when every reaction token is a model reaction |
| RegionRules.TagLinesEmptyIff | cnapy/gui_elements/mcs_dialog.py:451-524 | no line at all exactly when the tag sequence is well-formed and every reaction token is known |
| RegionRules.LeftErrorTextEmptyIff | cnapy/gui_elements/mcs_dialog.py:419-526 | the check returns `""` exactly when the expression is accepted, in both directions |
| RegionRules.CheckLeftMcsEquation | cnapy/gui_elements/mcs_dialog.py:419-526 | the whole left-hand-side check returns the report of the reference reading and rules |
| RegionRules.CheckTags | cnapy/gui_elements/mcs_dialog.py:451-524 | with the tokens in hand, the global checks, the pass with the end checks, and the lookup produce the rule lines in the dialog's order |
| RegionRules.ScanSemantics | cnapy/gui_elements/mcs_dialog.py:457-517 | the pass with the seven rolling flags and `is_start` produces the window lines followed by the end lines |
| RegionRules.WindowStep | cnapy/gui_elements/mcs_dialog.py:465-483 | with the flags describing the previous two tags, the `if` chain at one tag adds exactly the lines of the rules that tag breaks, in the dialog's order |
| RegionRules.LookUpReactions | cnapy/gui_elements/mcs_dialog.py:519-524 | the lookup loop adds one line per unknown token, in token order |
| RegionRules.SingleReactionAccepted | cnapy/gui_elements/mcs_dialog.py:419-526 | a lone known reaction ID gets an empty report |
| RegionExamples.ScaledReactionAccepted | cnapy/gui_elements/mcs_dialog.py:482-483 | a number times a known reaction (`2*R1`) gets an empty report |
| RegionExamples.MultipliedReactionsRejected | cnapy/gui_elements/mcs_dialog.py:482-483 | a known reaction times a known reaction (`R1*R2`) gets exactly the "multiplied together" line |
| RegionExamples.TrailingOperatorRejected | cnapy/gui_elements/mcs_dialog.py:511-513 | a known reaction followed by an operator (`R1+`) gets exactly the "must not end with" line |
| RegionExamples.UnknownReactionReported | cnapy/gui_elements/mcs_dialog.py:521-524 | a lone unknown ID gets exactly the line naming it |
| RegionExamples.TwoDivisionsRejected | cnapy/gui_elements/mcs_dialog.py:454-455 | `R1/2/3` gets exactly the "more than one /" line: a division between a reaction or number and a number breaks no window rule |
| RegionExamples.EmptyExpressionRejected | cnapy/gui_elements/mcs_dialog.py:451-452 | the empty expression gets exactly the "no reaction ID" line |
| RegionRows.CheckRightMcsEquation | cnapy/gui_elements/mcs_dialog.py:529-536 | the right-hand side gets `""` exactly when `float()` accepts it, and otherwise an error naming the text |
| RegionRows.TargetRowErrorsEmptyIff | cnapy/gui_elements/mcs_dialog.py:541-545 | a target row adds nothing exactly when both of its sides are valid, blank cells included |
| RegionRows.DesiredRowErrorsEmptyIff | cnapy/gui_elements/mcs_dialog.py:548-555 | a desired row adds nothing exactly when each of its filled-in sides is valid |
| RegionRows.ConcatAppend | cnapy/gui_elements/mcs_dialog.py:538-557 | the report of a table is the reports of its rows in table order |
| RegionRows.ConcatEmptyIff | cnapy/gui_elements/mcs_dialog.py:538-557 | a table's report is empty exactly when every row's report is |
| RegionRows.TargetErrorsEmptyIff | cnapy/gui_elements/mcs_dialog.py:540-545 | the target report is empty exactly when every target row is valid |
| RegionRows.DesiredErrorsEmptyIff | cnapy/gui_elements/mcs_dialog.py:547-555 | the desired report is empty exactly when every desired row is valid where filled in |
| RegionRows.McsEquationErrorsEmptyIff | cnapy/gui_elements/mcs_dialog.py:538-557 | the computation may start exactly when every target row and every filled-in desired cell is valid |
| RegionRows.CheckForMcsEquationErrors | cnapy/gui_elements/mcs_dialog.py:538-557 | the aggregation returns the target rows' reports (left then right), then the desired rows' reports |
| RegionRows.CheckTargetRows | cnapy/gui_elements/mcs_dialog.py:540-545 | the first loop checks both sides of every target row |
| RegionRows.CheckDesiredRows | cnapy/gui_elements/mcs_dialog.py:547-555 | the second loop checks only the non-empty sides of the desired rows |
| RegionRows.BlankRowsChecked | cnapy/gui_elements/mcs_dialog.py:541-555 | an all-blank target row is reported, while an all-blank desired row is not |
| RegionRows.RelationOp | cnapy/gui_elements/mcs_dialog.py:334-337 | the combo box gives `"<="` exactly for `≤` and `">="` for anything else |
| RegionRows.RegionNumbers | cnapy/gui_elements/mcs_dialog.py:329-340 | the dictionary's keys are exactly the region numbers of the kept rows, each once |
| RegionRows.RegionNumbersPrefix | cnapy/gui_elements/mcs_dialog.py:329-340 | a region keeps the place of its first row: the keys of a prefix of the rows are a prefix of the keys |
| RegionRows.EntriesFailIff | cnapy/gui_elements/mcs_dialog.py:330-339 | grouping fails exactly when a kept row has a bound `float()` rejects |
| RegionRows.GroupMembers | cnapy/gui_elements/mcs_dialog.py:339 | a relation is in a region's list exactly when a kept row of that region produced it |
| RegionRows.GroupNonEmptyIff | cnapy/gui_elements/mcs_dialog.py:339-340 | a region's list is non-empty exactly when its number is a key |
| RegionRows.GroupsOfShape | cnapy/gui_elements/mcs_dialog.py:340 | the j-th value is the list of the j-th key |
| RegionRows.GroupsNonEmpty | cnapy/gui_elements/mcs_dialog.py:339-340 | there is one list per key and none of them is empty |
| RegionRows.GroupingKeepsRelations | cnapy/gui_elements/mcs_dialog.py:329-340 | the lists together are a permutation of the kept rows' relations: none is lost or duplicated |
| RegionRows.GroupRegionRows | cnapy/gui_elements/mcs_dialog.py:328-340 | the `setdefault(...).append` loop and `list(d.values())` give the grouping `GroupRegions`, or `None` where `float()` raises |
| RegionRows.SetDefaultAppend | cnapy/gui_elements/mcs_dialog.py:339 | `setdefault(p1, []).append(...)` keeps the dictionary equal to the grouping of the rows so far, with keys in insertion order |
| RegionRows.RegionValues | cnapy/gui_elements/mcs_dialog.py:340 | `list(d.values())` gives the lists in the keys' order |
| RegionRows.BlankDesiredBoundPassesCheckThenRaises | cnapy/gui_elements/mcs_dialog.py:349-361 | as written: a desired row with region number and expression but a blank bound passes the check and then makes the grouping fail |
| RegionRows.BlankBoundRowPassesCheck | cnapy/gui_elements/mcs_dialog.py:553-555 | a desired row with a known lone reaction and a blank bound adds nothing to the report |
| RegionRows.BlankBoundRowRaises | cnapy/gui_elements/mcs_dialog.py:354-359 | the grouping as written calls `float()` on that row's blank bound and fails |
| RegionRows.CheckedRegionsGroup | cnapy/gui_elements/mcs_dialog.py:328-361 | corrected: whenever the check passes, the target rows and the desired rows (blank bounds skipped) group without error |
| RegionRows.Compute | cnapy/gui_elements/mcs_dialog.py:279-290 | a non-empty report gives the warning, with the dialog's introduction, exactly when the check fails; otherwise both tables are grouped |
| CutSetMatrix.BuildCutSetMatrix | cnapy/gui_elements/mcs_dialog.py:406-409 | the matrix has one row per cut set and one column per reaction; cell (i, j) is `-1.0` exactly when j is in cut set i, else `0.0` |
| CutSetMatrix.SupportOfCutSetRow | cnapy/gui_elements/mcs_dialog.py:406-409 | a row's non-zero columns are exactly the reactions of its cut set |
| McsDialog.EnumMethod | cnapy/gui_elements/mcs_dialog.py:300-307 | every search mode has a code from 1 to 4 |
| McsDialog.McsOptions.SelectedEnumMethod | cnapy/gui_elements/mcs_dialog.py:300-307 | the `if`/`elif` chain returns the code of the checked button; whenever the buttons are consistent with the solver, a solver other than CPLEX or Gurobi only ever gets codes 1 or 3 |
| McsDialog.McsOptions.ConfigureSolverOptions | cnapy/gui_elements/mcs_dialog.py:219-228 | the CPLEX/Gurobi-only buttons are enabled exactly for those solvers; a checked, now-disabled button falls back to "any MCS"; "exclude boundary" is enabled; nothing else changes |
| McsDialog.McsOptions.SetOptlangSolverText | cnapy/gui_elements/mcs_dialog.py:213-216 | the solver name is recorded and the label reads `<name> (optlang)`; the buttons do not change |
| McsDialog.McsOptions.constructor | cnapy/gui_elements/mcs_dialog.py:150-175 | the dialog starts with "any MCS" checked and the buttons configured for the solver |
| McsDialog.McsOptions.CheckSearchMode | cnapy/gui_elements/mcs_dialog.py:150-172 | checking an enabled button of the exclusive group makes it the only checked one and keeps the options valid |

## Left out

- Qt widgets, layouts, completers, signal wiring, cursors, message boxes and
  `ReceiverLineEdit` are not modelled. The warning of `compute` is the
  `RegionError` message it would show.
- The solver and parser calls are outside the model: `parse_relations`,
  `relations2leq_matrix` and `compute_mcs` from `mcs_computation`. So are the
  `ValueError` warnings around them, the exception handling and the
  `err_val` and "no cut sets" message boxes. `Compute` stops where the
  grouped regions are handed on.
- Scenario loading, the clamping of infinite bounds to cobra's configured
  bounds, the results cache and the `with model` revert semantics are not
  modelled. The model's reaction IDs are a plain `seq<string>`.
- The text fields are not modelled: maximum number, maximum size and time
  limit, including the `inf` time limit that becomes `None`.
- `float()` is a parameter (`isNumber` / `parse`). Which texts it accepts
  (`inf`, `nan`, exponents, surrounding whitespace) is not modelled.
- The sparse `lil_matrix` and `FluxVectorContainer` storage are not modelled.
  The matrix is a dense `array2<real>` holding the same cell values.
- The left-hand-side report is built as a sequence of `ErrorLine`s and
  rendered once, where the dialog appends to a string at each rule. The text
  is the same, because rendering distributes over concatenation
  (`RegionRules.ErrorTextAppend`).
- The body of `check_left_mcs_equation` is split into phase methods:
  `Tokenize` for the character loop (426-449), `CheckTags` for the global
  checks, `ScanSemantics` for the one loop over the tags (465-509) with the
  end checks, and `LookUpReactions` for the separate lookup loop (521-524).
  `ReadChar`, `ReadBoundary` and `WindowStep` hold one iteration's work. The
  order of the lines is unchanged.
- Python's `char in "*"` tests on single characters are modelled as
  character equality.
- `gui_elements/reactions_list.py` is not part of this model. It is widget
  code that delegates its only check to cobra.
- RegionRows.Compute: models the desired table with blank bounds skipped,
  the corrected behaviour of Findings. As written, such a row raises an
  uncaught `ValueError` (`RegionRows.BlankDesiredBoundPassesCheckThenRaises`).

## Findings

| source | as written | input that shows it | evidently intended | confidence | as-written member | corrected member |
|---|---|---|---|---|---|---|
| cnapy/gui_elements/mcs_dialog.py:349-361 | the desired grouping keeps every row with a region number and an expression, and calls `float()` on its bound cell; the check (:553-555) skips an empty desired bound, so `float("")` raises a `ValueError` that nothing catches | a desired row ("1", "R1", "≤", "") with R1 a reaction of the model | a row that passes the check is grouped without error, for example by skipping desired rows whose bound is blank | not executed; high, because `float("")` always raises | RegionRows.BlankDesiredBoundPassesCheckThenRaises | RegionRows.CheckedRegionsGroup |
