/** Crime levels: an offense type with an optional class letter, e.g. "Felony Class A". */
module CrimeLevels {
  import opened Wrappers

  /** The exceptions the source's string conversion can raise. */
  datatype PythonError = NameError(name: string)

  /** A crime level: the offense type and, optionally, its class (absent by default). */
  datatype CrimeLevel = CrimeLevel(crimeType: string, crimeClass: Option<string> := None)
  {
    /**
     * The intended `__str__`: `"<type> Class <class>"` when the class is
     * truthy, otherwise the type alone.
     */
    function ToString(): (r: string)
      ensures crimeType <= r
      ensures r == crimeType <==> FalsyText(crimeClass)
      ensures !FalsyText(crimeClass) ==> r[|crimeType|..] == " Class " + crimeClass.value
    {
      if FalsyText(crimeClass) then crimeType else crimeType + " Class " + crimeClass.value
    }

    /**
     * `__str__` as written: its guard reads the bare name `class_`, which is
     * bound neither in the method nor in the module, so evaluating the guard
     * raises `NameError` before either branch is reached, whatever the level.
     */
    function ToStringAsWritten(): (r: Result<string, PythonError>)
      ensures r == Failure(NameError("class_"))
    {
      Failure(NameError("class_"))
    }
  }

  /**
   * The written conversion fails on every crime level, with or without a
   * class, where the intended one always yields text.
   */
  lemma AsWrittenAlwaysRaises(level: CrimeLevel)
    ensures level.ToStringAsWritten() == Failure(NameError("class_"))
    ensures level.ToStringAsWritten() != Success(level.ToString())
  {
  }

  /** Worked renderings: with a class, without one, and with an empty one. */
  lemma ToStringExamples()
    ensures CrimeLevel("Felony", Some("A")).ToString() == "Felony Class A"
    ensures CrimeLevel("Misdemeanor").ToString() == "Misdemeanor"
    ensures CrimeLevel("Misdemeanor", Some("")).ToString() == "Misdemeanor"
  {
  }

  /** Distinct truthy classes of one offense type give distinct texts. */
  lemma ClassIsRecoverable(a: CrimeLevel, b: CrimeLevel)
    requires a.crimeType == b.crimeType
    requires !FalsyText(a.crimeClass) && !FalsyText(b.crimeClass)
    requires a.ToString() == b.ToString()
    ensures a.crimeClass == b.crimeClass
  {
    var n := |a.crimeType| + |" Class "|;
    assert a.crimeClass.value == a.ToString()[n..];
    assert b.crimeClass.value == b.ToString()[n..];
  }
}
