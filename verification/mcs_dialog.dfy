/** The enumeration options of the MCS dialog: the exclusive group of
    search-mode radio buttons, the solver that decides which of them are
    enabled, and the method code handed to the enumeration. */
module McsDialog {
  import opened Wrappers

  /** The four radio buttons of the "MCS search" group; the group is
      exclusive, so exactly one of them is checked. */
  datatype SearchMode = AnyMcs | ByCardinality | SmallestFirst | ContinuousSearch

  /** The `enum_method` code the enumeration expects for a search mode. */
  function EnumMethod(mode: SearchMode): (code: int)
    ensures 1 <= code <= 4
  {
    match mode
    case SmallestFirst => 1
    case ByCardinality => 2
    case AnyMcs => 3
    case ContinuousSearch => 4
  }

  /** The search mode a code stands for, if any. */
  function SearchModeOf(code: int): Option<SearchMode> {
    if code == 1 then Some(SmallestFirst)
    else if code == 2 then Some(ByCardinality)
    else if code == 3 then Some(AnyMcs)
    else if code == 4 then Some(ContinuousSearch)
    else None
  }

  /** Every mode has its own code, and the code gives the mode back. */
  lemma EnumMethodRoundTrip(mode: SearchMode)
    ensures SearchModeOf(EnumMethod(mode)) == Some(mode)
  {
  }

  /** Every code from 1 to 4 is the code of exactly one mode. */
  lemma EnumMethodCoversCodes(code: int)
    ensures SearchModeOf(code).Some? <==> 1 <= code <= 4
    ensures SearchModeOf(code).Some? ==> EnumMethod(SearchModeOf(code).value) == code
  {
  }

  /** The searches that only CPLEX and Gurobi offer. */
  predicate NeedsCplexOrGurobi(mode: SearchMode) {
    mode == ByCardinality || mode == ContinuousSearch
  }

  predicate IsCplexOrGurobi(solverName: string) {
    solverName == "cplex" || solverName == "gurobi"
  }

  /** The solver-dependent part of the dialog's state. */
  class McsOptions {
    var solverName: string
    var searchMode: SearchMode
    var byCardinalityEnabled: bool
    var continuousSearchEnabled: bool
    var excludeBoundaryEnabled: bool

    /** Whether the radio button of a mode can be checked. */
    predicate Enabled(mode: SearchMode)
      reads this
    {
      match mode
      case ByCardinality => byCardinalityEnabled
      case ContinuousSearch => continuousSearchEnabled
      case _ => true
    }

    /** The checked button is enabled, and the buttons that need CPLEX or
        Gurobi are enabled exactly when one of them is the solver. */
    predicate Valid()
      reads this
    {
      && Enabled(searchMode)
      && byCardinalityEnabled == IsCplexOrGurobi(solverName)
      && continuousSearchEnabled == IsCplexOrGurobi(solverName)
    }

    /** The dialog starts with "any MCS" checked and every button enabled,
        then configures the buttons for the current solver. */
    constructor(problemName: string)
      ensures Valid()
      ensures solverName == problemName && searchMode == AnyMcs && excludeBoundaryEnabled
    {
      solverName := problemName;
      searchMode := AnyMcs;
      byCardinalityEnabled := true;
      continuousSearchEnabled := true;
      excludeBoundaryEnabled := true;
      new;
      ConfigureSolverOptions();
    }

    /** Records the name of the solver the model uses and returns the label
        text shown for it. */
    method SetOptlangSolverText(problemName: string) returns (text: string)
      modifies this
      ensures solverName == problemName && text == problemName + " (optlang)"
      ensures searchMode == old(searchMode)
      ensures byCardinalityEnabled == old(byCardinalityEnabled)
      ensures continuousSearchEnabled == old(continuousSearchEnabled)
      ensures excludeBoundaryEnabled == old(excludeBoundaryEnabled)
    {
      solverName := problemName;
      text := problemName + " (optlang)";
    }

    /** Enables the buttons that need CPLEX or Gurobi only for those
        solvers, falling back to "any MCS" when a disabled one was checked. */
    method ConfigureSolverOptions()
      modifies this
      ensures Valid() && excludeBoundaryEnabled
      ensures solverName == old(solverName)
      ensures searchMode == if NeedsCplexOrGurobi(old(searchMode)) && !IsCplexOrGurobi(solverName)
                            then AnyMcs else old(searchMode)
    {
      excludeBoundaryEnabled := true;
      if solverName != "cplex" && solverName != "gurobi" {
        if searchMode == ByCardinality || searchMode == ContinuousSearch {
          searchMode := AnyMcs;
        }
        byCardinalityEnabled := false;
        continuousSearchEnabled := false;
      } else {
        byCardinalityEnabled := true;
        continuousSearchEnabled := true;
      }
    }

    /** The user checks an enabled radio button; the group unchecks the rest. */
    method CheckSearchMode(mode: SearchMode)
      requires Valid() && Enabled(mode)
      modifies this
      ensures Valid() && searchMode == mode
      ensures solverName == old(solverName) && excludeBoundaryEnabled == old(excludeBoundaryEnabled)
      ensures byCardinalityEnabled == old(byCardinalityEnabled)
      ensures continuousSearchEnabled == old(continuousSearchEnabled)
    {
      searchMode := mode;
    }

    /** The `enum_method` chain of `compute_optlang`: a solver other than
        CPLEX or Gurobi is only ever asked for codes 1 or 3. */
    method SelectedEnumMethod() returns (code: int)
      ensures code == EnumMethod(searchMode)
      ensures Valid() && !IsCplexOrGurobi(solverName) ==> code == 1 || code == 3
    {
      if searchMode == SmallestFirst {
        code := 1;
      } else if searchMode == ByCardinality {
        code := 2;
      } else if searchMode == AnyMcs {
        code := 3;
      } else {
        code := 4;
      }
    }
  }
}
