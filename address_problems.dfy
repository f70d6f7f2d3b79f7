/** src/LibAddressInput/AddressProblems.cs: the per-field registry of validation
    problems. The registry's dictionary is one object, changed in place and handed
    out live through `Problems`, so writes made through it are what the queries read. */
module AddressProblemsModel {
  import opened Wrappers
  import opened Exceptions
  import opened AddressFields
  import opened AddressProblemTypes
  import Dictionaries

  /** The Dictionary<AddressField, AddressProblemType> object. */
  class ProblemTable {
    var entries: map<AddressField, AddressProblemType>

    constructor()
      ensures entries == map[]
    {
      entries := map[];
    }

    /** Dictionary.Add: a new key is inserted; an existing key is rejected and the
        dictionary is left as it was. */
    method Add(f: AddressField, t: AddressProblemType) returns (r: Outcome<Exception>)
      modifies this
      ensures f in old(entries) ==> r == Fail(DuplicateKey) && entries == old(entries)
      ensures f !in old(entries) ==> r == Pass && entries == old(entries)[f := t]
    {
      match Dictionaries.Add(entries, f, t)
      case Success(m) =>
        entries := m;
        r := Pass;
      case Failure(e) =>
        r := Fail(e);
    }

    /** Dictionary.Clear */
    method Clear()
      modifies this
      ensures entries == map[]
    {
      entries := map[];
    }
  }

  class AddressProblems {
    const problems: ProblemTable   // `_problems`: never reassigned, only changed in place

    constructor()
      ensures fresh(problems)
      ensures IsEmpty()
      ensures forall f :: GetProblemType(f) == None
    {
      problems := new ProblemTable();
    }

    /** The recorded problem of a field, or null. */
    function GetProblemType(f: AddressField): Option<AddressProblemType>
      reads problems
    {
      if f in problems.entries then Some(problems.entries[f]) else None
    }

    /** `!_problems.Any()`: true exactly when no field has a recorded problem. */
    function IsEmpty(): (r: bool)
      reads problems
      ensures r <==> forall f :: GetProblemType(f).None?
    {
      assert forall f :: GetProblemType(f).None? ==> f !in problems.entries;
      assert problems.entries != map[] ==> exists f :: f in problems.entries;
      !(|problems.entries| > 0)
    }

    /** The private Add: records `t` for `f`, unless `f` already has a problem: that
        is an error and nothing changes. No other field's problem changes either way.
        Being private, it is reached from outside only as `Problems().Add`. */
    method Add(f: AddressField, t: AddressProblemType) returns (r: Outcome<Exception>)
      modifies problems
      ensures old(GetProblemType(f)).Some? ==> r == Fail(DuplicateKey) && GetProblemType(f) == old(GetProblemType(f))
      ensures old(GetProblemType(f)).None? ==> r == Pass && GetProblemType(f) == Some(t)
      ensures forall g :: g != f ==> GetProblemType(g) == old(GetProblemType(g))
    {
      r := problems.Add(f, t);
    }

    /** Forgets every problem. */
    method Clear()
      modifies problems
      ensures IsEmpty()
      ensures forall f :: GetProblemType(f) == None
    {
      problems.Clear();
    }

    /** The live dictionary, not a copy. */
    function Problems(): ProblemTable {
      problems
    }
  }

  /** Entries written through `Problems` are seen by GetProblemType and IsEmpty. */
  method WritesThroughProblemsAreSeen(f: AddressField, t: AddressProblemType) returns (p: AddressProblems)
    ensures p.GetProblemType(f) == Some(t)
    ensures !p.IsEmpty()
  {
    p := new AddressProblems();
    var table := p.Problems();
    var r := table.Add(f, t);
  }

  /** Adding a problem twice for one field fails the second time and keeps the first;
      clearing then empties the registry. */
  method AddTwiceThenClear(f: AddressField, t1: AddressProblemType, t2: AddressProblemType)
    returns (first: Outcome<Exception>, second: Outcome<Exception>, kept: Option<AddressProblemType>, emptied: bool)
    ensures first == Pass && second == Fail(DuplicateKey)
    ensures kept == Some(t1)
    ensures emptied
  {
    var p := new AddressProblems();
    first := p.Add(f, t1);
    second := p.Add(f, t2);
    kept := p.GetProblemType(f);
    p.Clear();
    emptied := p.IsEmpty();
  }
}
