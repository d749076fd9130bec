/** The four aggregation steps and the two questions an aggregate asks of its step. */
module Steps {

  /** The phase an aggregation operator runs in, fixed when it is built. */
  datatype Step = Partial | Intermediate | Final | Single

  /** Whether the operator is fed raw input rows (rather than accumulators
      produced by an earlier step). */
  predicate IsRawInput(step: Step)
  {
    step == Partial || step == Single
  }

  /** Whether the operator emits intermediate accumulators (rather than the
      final result). */
  predicate IsPartialOutput(step: Step)
  {
    step == Partial || step == Intermediate
  }

  /** The step that has the given pair of answers: the inverse of the pair of
      predicates above, so the two predicates together form a 2x2 table with
      exactly one step in every cell. */
  function StepOf(rawInput: bool, partialOutput: bool): (s: Step)
    ensures IsRawInput(s) == rawInput
    ensures IsPartialOutput(s) == partialOutput
  {
    if rawInput then
      (if partialOutput then Partial else Single)
    else
      (if partialOutput then Intermediate else Final)
  }

  /** Raw input exactly for Partial and Single; never for Intermediate and Final. */
  lemma RawInputSteps(step: Step)
    ensures IsRawInput(step) <==> step in {Partial, Single}
    ensures !IsRawInput(step) <==> step in {Intermediate, Final}
  {
  }

  /** Partial output exactly for Partial and Intermediate; never for Single and Final. */
  lemma PartialOutputSteps(step: Step)
    ensures IsPartialOutput(step) <==> step in {Partial, Intermediate}
    ensures !IsPartialOutput(step) <==> step in {Single, Final}
  {
  }

  /** The two answers determine the step: every step is recovered from its
      row and column of the table, so no two steps share a cell. */
  lemma FlagsDetermineStep(step: Step)
    ensures StepOf(IsRawInput(step), IsPartialOutput(step)) == step
  {
  }
}
