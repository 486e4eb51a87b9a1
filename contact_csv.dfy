// The contact object of the CSV import: its constructor, and the
// prototype's mark setter and predicates, which update and read the
// object's own fields.

module ContactCsv {
  import opened JsValues

  /**
   * `new contact(...)`. After the loose comparisons of the mark and the
   * surgeon mark with "", line 5 compares `_x`, a parameter that was
   * commented out of the list: reading the undeclared name throws before
   * any field is assigned, whatever the arguments.
   */
  function NewContact(locationID: Value, contactNumber: Value, associatedLocation: Value,
                      mark: Value, surgeonMark: Value): (r: Outcome<Contact?>)
    ensures r.Err? && r.error == ReferenceError
  {
    var _ := if LooseEq(mark, Str("")) then Num(0.0) else mark;
    var _ := if LooseEq(surgeonMark, Str("")) then Num(0.0) else surgeonMark;
    Err(ReferenceError)
  }

  /** What setMark does for an argument. */
  datatype MarkEffect = SetTo(code: int) | ToggleSurgeonMark | NoEffect

  /** The `switch (mark)` of setMark, whose cases compare with `===`. */
  function EffectOf(arg: Value): MarkEffect
  {
    match arg
    case Num(x) => if x == 0.0 then SetTo(0) else if x == 1.0 then SetTo(1) else if x == 2.0 then SetTo(2)
                   else if x == 3.0 then ToggleSurgeonMark else NoEffect
    case Str(name) => NamedEffect(name)
    case _ => NoEffect
  }

  function NamedEffect(name: string): MarkEffect
  {
    if name in ["NI", "NotInvolved", "Green"] then SetTo(0)
    else if name in ["SOZ", "SeizureOnsetZone", "Red"] then SetTo(1)
    else if name in ["SN", "SeizureNetwork", "Yellow"] then SetTo(2)
    else if name in ["SurgeonMark", "SurgeonToggle", "Bold"] then ToggleSurgeonMark
    else NoEffect
  }

  /** The code 0 and its names NI, NotInvolved and Green set mark 0. */
  lemma NotInvolvedNames()
    ensures EffectOf(Num(0.0)) == EffectOf(Str("NI")) == EffectOf(Str("NotInvolved")) == EffectOf(Str("Green")) == SetTo(0)
  {
  }

  /** The code 1 and its names SOZ, SeizureOnsetZone and Red set mark 1. */
  lemma SeizureOnsetNames()
    ensures EffectOf(Num(1.0)) == EffectOf(Str("SOZ")) == EffectOf(Str("SeizureOnsetZone")) == EffectOf(Str("Red")) == SetTo(1)
  {
    assert "SOZ" !in ["NI", "NotInvolved", "Green"];
    assert "SeizureOnsetZone" !in ["NI", "NotInvolved", "Green"];
    assert "Red" !in ["NI", "NotInvolved", "Green"];
  }

  /** The code 2 and its names SN, SeizureNetwork and Yellow set mark 2. */
  lemma SeizureNetworkNames()
    ensures EffectOf(Num(2.0)) == EffectOf(Str("SN")) == EffectOf(Str("SeizureNetwork")) == EffectOf(Str("Yellow")) == SetTo(2)
  {
    assert "SN" !in ["NI", "NotInvolved", "Green"] && "SN" !in ["SOZ", "SeizureOnsetZone", "Red"];
    assert "SeizureNetwork" !in ["NI", "NotInvolved", "Green"] && "SeizureNetwork" !in ["SOZ", "SeizureOnsetZone", "Red"];
    assert "Yellow" !in ["NI", "NotInvolved", "Green"] && "Yellow" !in ["SOZ", "SeizureOnsetZone", "Red"];
  }

  /** The code 3 and its names SurgeonMark, SurgeonToggle and Bold toggle the surgeon mark. */
  lemma SurgeonMarkNames()
    ensures EffectOf(Num(3.0)) == EffectOf(Str("SurgeonMark")) == EffectOf(Str("SurgeonToggle")) ==
            EffectOf(Str("Bold")) == ToggleSurgeonMark
  {
    var names := ["SurgeonMark", "SurgeonToggle", "Bold"];
    forall n | n in names
      ensures n !in ["NI", "NotInvolved", "Green"] && n !in ["SOZ", "SeizureOnsetZone", "Red"] &&
              n !in ["SN", "SeizureNetwork", "Yellow"]
    {
    }
  }

  /**
   * Only the codes 0 to 3 and their names have an effect: another number,
   * a one-character string such as "1", a boolean or a nullish value is
   * ignored, and a set mark is one of 0, 1 and 2.
   */
  lemma EffectOfOthers(arg: Value)
    ensures EffectOf(arg).SetTo? ==> 0 <= EffectOf(arg).code <= 2
    ensures arg.Num? && arg.x != 0.0 && arg.x != 1.0 && arg.x != 2.0 && arg.x != 3.0 ==> EffectOf(arg) == NoEffect
    ensures !arg.Num? && !arg.Str? ==> EffectOf(arg) == NoEffect
    ensures arg.Str? && |arg.s| == 1 ==> EffectOf(arg) == NoEffect
  {
  }

  /** `!v`, as a value. */
  function Negated(v: Value): Value
  {
    Bool(!Truthy(v))
  }

  /**
   * Two toggles restore the surgeon mark's truth, and restore the value
   * itself once it is a boolean; a numeric 0 or 1 becomes false or true.
   */
  lemma NegatedTwice(v: Value)
    ensures Truthy(Negated(Negated(v))) == Truthy(v)
    ensures v.Bool? ==> Negated(Negated(v)) == v
  {
  }

  class Contact {
    var locationID: Value
    var contactNumber: Value
    var associatedLocation: Value
    var mark: Value
    var surgeonMark: Value

    /** An object with this prototype and these fields. */
    constructor (locationID: Value, contactNumber: Value, associatedLocation: Value, mark: Value, surgeonMark: Value)
      ensures this.locationID == locationID && this.contactNumber == contactNumber
      ensures this.associatedLocation == associatedLocation
      ensures this.mark == mark && this.surgeonMark == surgeonMark
    {
      this.locationID := locationID;
      this.contactNumber := contactNumber;
      this.associatedLocation := associatedLocation;
      this.mark := mark;
      this.surgeonMark := surgeonMark;
    }

    /** setMark: set the mark, toggle the surgeon mark, or do nothing, as EffectOf says. */
    method SetMark(arg: Value)
      modifies this
      ensures EffectOf(arg).SetTo? ==> mark == Num(EffectOf(arg).code as real) && surgeonMark == old(surgeonMark)
      ensures EffectOf(arg).ToggleSurgeonMark? ==> surgeonMark == Negated(old(surgeonMark)) && mark == old(mark)
      ensures EffectOf(arg).NoEffect? ==> mark == old(mark) && surgeonMark == old(surgeonMark)
      ensures locationID == old(locationID) && contactNumber == old(contactNumber)
      ensures associatedLocation == old(associatedLocation)
    {
      match EffectOf(arg)
      case SetTo(code) => mark := Num(code as real);
      case ToggleSurgeonMark => surgeonMark := Negated(surgeonMark);
      case NoEffect =>
    }

    /** isMarked: `this.mark || this.surgeonMark`. */
    function IsMarked(): (r: Value)
      reads this
      ensures Truthy(r) <==> Truthy(mark) || Truthy(surgeonMark)
      ensures r == mark || r == surgeonMark
    {
      if Truthy(mark) then mark else surgeonMark
    }

    function IsOutOfBrain(): (r: bool)
      reads this
      ensures r <==> associatedLocation in [Str("OOB"), Str("OutOfBrain")]
    {
      LooseEq(associatedLocation, Str("OOB")) || LooseEq(associatedLocation, Str("OutOfBrain"))
    }

    function IsWhiteMatter(): (r: bool)
      reads this
      ensures r <==> associatedLocation in [Str("WM"), Str("WhiteMatter")]
    {
      LooseEq(associatedLocation, Str("WM")) || LooseEq(associatedLocation, Str("WhiteMatter"))
    }
  }
}
