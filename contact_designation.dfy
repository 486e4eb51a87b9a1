// The designation page's own rules: how loaded electrodes are normalised,
// how one contact is changed, which of the two views is shown, and the
// data handed to a new stimulation tab.

module ContactDesignation {
  import opened JsValues
  import opened Electrodes

  /**
   * A contact as loaded: `mark` and `surgeonMark` may be absent; every
   * other field is carried through unchanged by the object spread.
   */
  datatype LoadedContact = LoadedContact(fields: Contact, mark: Option<int>, surgeonMark: Option<bool>)

  datatype LoadedElectrode = LoadedElectrode(name: string, contacts: seq<LoadedContact>)

  /** `contact.mark || 0` and `contact.surgeonMark || false`. */
  function MarkOrZero(m: Option<int>): int { if m.Some? && m.value != 0 then m.value else 0 }
  function FlagOrFalse(b: Option<bool>): bool { b.Some? && b.value }

  function NormalisedContact(name: string, position: nat, c: LoadedContact): Contact
  {
    c.fields.(id := ContactId(name, position), electrodeLabel := name, index := position + 1,
              mark := MarkOrZero(c.mark), surgeonMark := FlagOrFalse(c.surgeonMark), focus := false)
  }

  /** The initial electrodes: each contact numbered by its position and given its defaults. */
  function Normalised(loaded: seq<LoadedElectrode>): (r: seq<Electrode>)
    ensures |r| == |loaded|
    ensures forall e :: 0 <= e < |r| ==> r[e].name == loaded[e].name && |r[e].contacts| == |loaded[e].contacts|
  {
    seq(|loaded|, e requires 0 <= e < |loaded| =>
      Electrode(loaded[e].name,
                seq(|loaded[e].contacts|, k requires 0 <= k < |loaded[e].contacts| =>
                  NormalisedContact(loaded[e].name, k, loaded[e].contacts[k]))))
  }

  /**
   * After normalisation contact k of an electrode has id label + (k + 1),
   * its electrode's label and index k + 1; a missing or zero mark is 0, a
   * missing surgeon mark is false, focus is cleared, and every other
   * field is the loaded one. Ids on one electrode are distinct.
   */
  lemma NormalisedFacts(loaded: seq<LoadedElectrode>, e: nat, k: nat)
    requires e < |loaded| && k < |loaded[e].contacts|
    ensures var c := Normalised(loaded)[e].contacts[k];
      var l := loaded[e].contacts[k];
      c.id == loaded[e].name + NatToString(k + 1) && c.electrodeLabel == loaded[e].name && c.index == k + 1 &&
      (l.mark.None? ==> c.mark == 0) && (l.mark.Some? ==> c.mark == l.mark.value) &&
      (c.surgeonMark <==> l.surgeonMark == Some(true)) && !c.focus &&
      c.associatedLocation == l.fields.associatedLocation && c.isPlanning == l.fields.isPlanning &&
      c.order == l.fields.order && c.pair == l.fields.pair
    ensures forall j :: 0 <= j < |loaded[e].contacts| && j != k ==>
      Normalised(loaded)[e].contacts[j].id != Normalised(loaded)[e].contacts[k].id
  {
    forall j | 0 <= j < |loaded[e].contacts| && j != k
      ensures Normalised(loaded)[e].contacts[j].id != Normalised(loaded)[e].contacts[k].id
    {
      ContactIdsDistinct(loaded[e].name, j, k);
    }
  }

  /** `updateContact(contactId, change)`: every contact with that id is replaced by change(contact). */
  function UpdateContact(electrodes: seq<Electrode>, id: string, change: Contact -> Contact): (r: seq<Electrode>)
    ensures |r| == |electrodes|
    ensures forall e :: 0 <= e < |r| ==> r[e].name == electrodes[e].name && |r[e].contacts| == |electrodes[e].contacts|
  {
    seq(|electrodes|, e requires 0 <= e < |electrodes| =>
      electrodes[e].(contacts := seq(|electrodes[e].contacts|, k requires 0 <= k < |electrodes[e].contacts| =>
        var c := electrodes[e].contacts[k];
        if c.id == id then change(c) else c)))
  }

  /**
   * A contact with the id becomes change(contact); every other contact,
   * and the order and number of electrodes and contacts, stay.
   */
  lemma UpdateContactFacts(electrodes: seq<Electrode>, id: string, change: Contact -> Contact, e: nat, k: nat)
    requires e < |electrodes| && k < |electrodes[e].contacts|
    ensures var c := electrodes[e].contacts[k];
      UpdateContact(electrodes, id, change)[e].contacts[k] == if c.id == id then change(c) else c
  {
  }

  /**
   * Two updates of the same contact compose, when the first keeps the id:
   * the clicks a page makes on one contact add up to one change.
   */
  lemma UpdateContactTwice(electrodes: seq<Electrode>, id: string, f: Contact -> Contact, g: Contact -> Contact)
    requires forall c: Contact :: f(c).id == c.id
    ensures UpdateContact(UpdateContact(electrodes, id, f), id, g) == UpdateContact(electrodes, id, c => g(f(c)))
  {
    var once := UpdateContact(electrodes, id, f);
    var lhs := UpdateContact(once, id, g);
    var rhs := UpdateContact(electrodes, id, c => g(f(c)));
    forall e | 0 <= e < |electrodes|
      ensures lhs[e] == rhs[e]
    {
      forall k | 0 <= k < |electrodes[e].contacts|
        ensures lhs[e].contacts[k] == rhs[e].contacts[k]
      {
        UpdateContactFacts(electrodes, id, f, e, k);
        UpdateContactFacts(once, id, g, e, k);
        UpdateContactFacts(electrodes, id, c => g(f(c)), e, k);
      }
    }
  }

  /** An update whose change keeps every contact it touches changes nothing. */
  lemma UpdateContactNoChange(electrodes: seq<Electrode>, id: string, change: Contact -> Contact)
    requires forall e, k :: 0 <= e < |electrodes| && 0 <= k < |electrodes[e].contacts| ==>
      (electrodes[e].contacts[k].id == id ==> change(electrodes[e].contacts[k]) == electrodes[e].contacts[k])
    ensures UpdateContact(electrodes, id, change) == electrodes
  {
    var r := UpdateContact(electrodes, id, change);
    forall e | 0 <= e < |electrodes|
      ensures r[e] == electrodes[e]
    {
      forall k | 0 <= k < |electrodes[e].contacts|
        ensures r[e].contacts[k] == electrodes[e].contacts[k]
      {
        UpdateContactFacts(electrodes, id, change, e, k);
      }
    }
  }

  // ----- the two views -----

  const PageNames: seq<string> := ["designation", "resection"]

  /** The saved layout when there is a non-empty one, else the designation view. */
  function InitialLayout(saved: Option<string>): (r: string)
    ensures saved.Some? && saved.value != "" ==> r == saved.value
    ensures saved.None? || saved.value == "" ==> r == PageNames[0]
  {
    if saved.Some? && saved.value != "" then saved.value else PageNames[0]
  }

  function ToggleLayout(layout: string): (r: string)
    ensures r in PageNames && r != layout
  {
    if layout == PageNames[0] then PageNames[1] else PageNames[0]
  }

  /** On the two page names toggling twice is the identity; anything else lands on the designation view. */
  lemma ToggleLayoutTwice(layout: string)
    ensures layout in PageNames ==> ToggleLayout(ToggleLayout(layout)) == layout
    ensures layout !in PageNames ==> ToggleLayout(layout) == PageNames[0]
  {
  }

  // ----- the stimulation tab -----

  /** The pairing a new stimulation plan starts from: the contact before, and for the first contact the third. */
  function InitialPair(position: nat): int
  {
    if position == 0 then 2 else position
  }

  /**
   * createStimulationTab's data: nothing when there are no electrodes;
   * otherwise every contact paired as InitialPair says, not planned, with
   * the default duration, frequency and current.
   */
  function StimulationData(electrodes: seq<Electrode>): (r: Option<seq<Electrode>>)
    ensures r.None? <==> electrodes == []
    ensures r.Some? ==> |r.value| == |electrodes|
  {
    if |electrodes| == 0 then None
    else Some(seq(|electrodes|, e requires 0 <= e < |electrodes| =>
      electrodes[e].(contacts := seq(|electrodes[e].contacts|, k requires 0 <= k < |electrodes[e].contacts| =>
        electrodes[e].contacts[k].(pair := InitialPair(k), isPlanning := false,
                                   duration := 3.0, frequency := 105.225, current := 2.445)))))
  }

  /**
   * The pair of contact k is the 1-based index of the contact before it
   * (k), and 2 for the first contact; on an electrode of one contact the
   * first contact is paired with one that does not exist.
   */
  lemma StimulationDataFacts(electrodes: seq<Electrode>, e: nat, k: nat)
    requires e < |electrodes| && k < |electrodes[e].contacts|
    ensures var r := StimulationData(electrodes).value;
      var c := r[e].contacts[k];
      var before := electrodes[e].contacts[k];
      r[e].name == electrodes[e].name && |r[e].contacts| == |electrodes[e].contacts| &&
      (k > 0 ==> c.pair == k) && (k == 0 ==> c.pair == 2) &&
      !c.isPlanning && c.duration == 3.0 && c.frequency == 105.225 && c.current == 2.445 &&
      c.id == before.id && c.mark == before.mark && c.surgeonMark == before.surgeonMark &&
      c.associatedLocation == before.associatedLocation
  {
  }
}
