/**
 * The record aggregates: dispositions, charges, cases and clients, the two
 * closed enumerations they use, and the charge counts of cases and clients.
 */
module Records {
  import opened Wrappers
  import opened Statutes
  import opened CrimeLevels

  /** A calendar date, carried as an opaque value: nothing here computes with it. */
  datatype Date = Date(year: int, month: int, day: int)

  /** The five kinds of disposition, numbered 1 to 5 in declaration order. */
  datatype DispositionType = Convicted | ProbationRevoked | Dismissed | Acquitted | NoComplaint
  {
    /** The enumeration's value. */
    function Value(): (v: int)
      ensures 1 <= v <= 5
    {
      match this
      case Convicted => 1
      case ProbationRevoked => 2
      case Dismissed => 3
      case Acquitted => 4
      case NoComplaint => 5
    }

    /** Lookup by value: `None` where the enumeration raises `ValueError`. */
    static function FromValue(v: int): (r: Option<DispositionType>)
      ensures r.Some? <==> 1 <= v <= 5
      ensures r.Some? ==> r.value.Value() == v
    {
      if v == 1 then Some(Convicted)
      else if v == 2 then Some(ProbationRevoked)
      else if v == 3 then Some(Dismissed)
      else if v == 4 then Some(Acquitted)
      else if v == 5 then Some(NoComplaint)
      else None
    }
  }

  /** Each disposition kind is found again from its value. */
  lemma DispositionValueRoundTrip(d: DispositionType)
    ensures DispositionType.FromValue(d.Value()) == Some(d)
  {
  }

  /** The outcome of a charge. */
  datatype Disposition = Disposition(dispositionType: DispositionType, date: Date)

  /** One alleged offense. */
  datatype Charge = Charge(
    name: string,
    statute: Statute,
    level: CrimeLevel,
    date: Date,
    disposition: Disposition)

  /** The two states of a case, numbered 1 and 2 in declaration order. */
  datatype CaseState = Open | Closed
  {
    function Value(): (v: int)
      ensures 1 <= v <= 2
    {
      match this
      case Open => 1
      case Closed => 2
    }

    /** Lookup by value: `None` where the enumeration raises `ValueError`. */
    static function FromValue(v: int): (r: Option<CaseState>)
      ensures r.Some? <==> 1 <= v <= 2
      ensures r.Some? ==> r.value.Value() == v
    {
      if v == 1 then Some(Open) else if v == 2 then Some(Closed) else None
    }
  }

  /** Each case state is found again from its value. */
  lemma CaseStateValueRoundTrip(s: CaseState)
    ensures CaseState.FromValue(s.Value()) == Some(s)
  {
  }

  /**
   * A case: its charges in record order, its state and the amount owed to the
   * court (zero by default). The amount is carried but never computed with.
   */
  datatype Case = Case(charges: seq<Charge>, state: CaseState, balanceDue: real := 0.0)
  {
    /** The number of charges in the case: as many as the case contributes to a charge listing. */
    function NumCharges(): (n: nat)
      ensures n == |AllCharges([this])|
    {
      assert AllCharges([this]) == charges + AllCharges([]);
      |charges|
    }
  }

  /** The sum of the charge counts of `cases`. */
  function TotalCharges(cases: seq<Case>): nat
  {
    if cases == [] then 0
    else TotalCharges(cases[..|cases| - 1]) + cases[|cases| - 1].NumCharges()
  }

  /** All charges of `cases`, case after case, each case's in its own order. */
  function AllCharges(cases: seq<Case>): seq<Charge>
  {
    if cases == [] then [] else cases[0].charges + AllCharges(cases[1..])
  }

  /** A person with a record. */
  datatype Client = Client(name: string, dob: Date, cases: seq<Case>)
  {
    /**
     * The number of charges across all the client's cases, accumulated case
     * by case. The client is a value, so counting changes no case or charge.
     */
    method NumCharges() returns (num: nat)
      ensures num == TotalCharges(cases)
      ensures num == |AllCharges(cases)|
    {
      num := 0;
      for i := 0 to |cases|
        invariant num == TotalCharges(cases[..i])
      {
        assert cases[..i + 1][..i] == cases[..i];
        num := num + cases[i].NumCharges();
      }
      assert cases[..|cases|] == cases;
      TotalIsAllChargesCount(cases);
    }
  }

  /** Counting is additive over concatenated case lists. */
  lemma {:induction false} TotalChargesAppend(s: seq<Case>, t: seq<Case>)
    ensures TotalCharges(s + t) == TotalCharges(s) + TotalCharges(t)
  {
    if t == [] {
      assert s + t == s;
    } else {
      var u := t[..|t| - 1];
      assert (s + t)[..|s + t| - 1] == s + u;
      TotalChargesAppend(s, u);
    }
  }

  /** The total is the number of charges over all cases taken together. */
  lemma {:induction false} TotalIsAllChargesCount(cases: seq<Case>)
    ensures TotalCharges(cases) == |AllCharges(cases)|
  {
    if cases != [] {
      assert cases == [cases[0]] + cases[1..];
      TotalChargesAppend([cases[0]], cases[1..]);
      assert [cases[0]][..0] == [];
      TotalIsAllChargesCount(cases[1..]);
    }
  }

  /** A client without cases has no charges. */
  lemma NoCasesNoCharges(name: string, dob: Date)
    ensures TotalCharges(Client(name, dob, []).cases) == 0
  {
  }

  /** Adding a case, at either end, adds exactly that case's charges. */
  lemma {:induction false} AddingACase(cases: seq<Case>, c: Case)
    ensures TotalCharges(cases + [c]) == TotalCharges(cases) + |c.charges|
    ensures TotalCharges([c] + cases) == |c.charges| + TotalCharges(cases)
  {
    TotalChargesAppend(cases, [c]);
    TotalChargesAppend([c], cases);
    assert [c][..0] == [];
  }

  /** Two cases holding two charges and one charge give a client three charges. */
  lemma ThreeChargesExample(c1: Charge, c2: Charge, c3: Charge, name: string, dob: Date, balance: real)
    ensures TotalCharges(Client(name, dob, [Case([c1, c2], Open, balance), Case([c3], Closed, 0.0)]).cases) == 3
  {
    var first, second := Case([c1, c2], Open, balance), Case([c3], Closed, 0.0);
    AddingACase([first], second);
    AddingACase([], first);
    assert [] + [first] == [first];
    assert [first] + [second] == [first, second];
  }
}
