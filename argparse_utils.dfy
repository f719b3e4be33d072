/** Validation of the `--soupification` command-line argument. */
module ArgparseUtils {
  import opened Wrappers
  import opened EnumsClasses

  /** Maps the argument to its technique, comparing exactly (case included);
      any other string raises ValueError. */
  function FormatSoupificationArgument(soupification: string): (r: Result<ParallelTechnique, PyException>)
    ensures r.Success? <==> soupification in {"multiprocessing", "multithreading", "synchronous"}
    ensures r.Success? ==> r.value.Value() == soupification
    ensures r.Failure? ==> r.error == ValueError
  {
    if soupification == "multiprocessing" then Success(Multiprocessing)
    else if soupification == "multithreading" then Success(Multithreading)
    else if soupification == "synchronous" then Success(Synchronous)
    else Failure(ValueError)
  }

  /** Every technique is accepted under its own value. */
  lemma FormatSoupificationRoundTrip(t: ParallelTechnique)
    ensures FormatSoupificationArgument(t.Value()) == Success(t)
  {
  }

  /** Distinct accepted strings give distinct techniques. */
  lemma FormatSoupificationInjective(a: string, b: string)
    requires FormatSoupificationArgument(a).Success? && FormatSoupificationArgument(b).Success?
    requires a != b
    ensures FormatSoupificationArgument(a).value != FormatSoupificationArgument(b).value
  {
  }
}
