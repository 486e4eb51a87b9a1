// The electrode and contact records that the designation and planning
// pages pass around. One record type holds every field any of those pages
// reads or writes; a page that does not use a field leaves it alone, as
// the source's object spreads do.

module Electrodes {
  import opened JsValues

  datatype Contact = Contact(
    id: string,
    electrodeLabel: string,
    index: int,                 // 1-based position on its electrode
    associatedLocation: string,
    mark: int,                  // 0 not involved, 1 seizure onset zone, 2 seizure network, 3 out of brain
    surgeonMark: bool,
    focus: bool,
    isPlanning: bool,
    order: real,
    pair: int,
    duration: real,
    frequency: real,
    current: real)

  /** An electrode; `name` is the source's `label` (a reserved word here). */
  datatype Electrode = Electrode(name: string, contacts: seq<Contact>)

  /** `${electrode.label}${index + 1}`: the id of the contact at 0-based position `position`. */
  function ContactId(name: string, position: nat): string
  {
    name + NatToString(position + 1)
  }

  lemma DigitCharCode(d: nat)
    requires d < 10
    ensures DigitChar(d) as int == '0' as int + d
  {
    if d == 0 {} else if d == 1 {} else if d == 2 {} else if d == 3 {} else if d == 4 {}
    else if d == 5 {} else if d == 6 {} else if d == 7 {} else if d == 8 {} else {}
  }

  /** Decimal texts of different numbers differ. */
  lemma {:induction false} NatToStringInjective(m: nat, n: nat)
    requires NatToString(m) == NatToString(n)
    ensures m == n
    decreases m
  {
    var a, b := NatToString(m), NatToString(n);
    if m >= 10 && n >= 10 {
      assert a[..|a| - 1] == NatToString(m / 10) && b[..|b| - 1] == NatToString(n / 10);
      NatToStringInjective(m / 10, n / 10);
      DigitCharCode(m % 10);
      DigitCharCode(n % 10);
      assert a[|a| - 1] == DigitChar(m % 10) && b[|b| - 1] == DigitChar(n % 10);
    } else if m < 10 && n < 10 {
      DigitCharCode(m);
      DigitCharCode(n);
      assert a[0] == DigitChar(m) && b[0] == DigitChar(n);
    }
  }

  /** Two positions on the same electrode never get the same id. */
  lemma ContactIdsDistinct(name: string, i: nat, j: nat)
    requires i != j
    ensures ContactId(name, i) != ContactId(name, j)
  {
    if ContactId(name, i) == ContactId(name, j) {
      var a, b := NatToString(i + 1), NatToString(j + 1);
      assert a == ContactId(name, i)[|name|..];
      assert b == ContactId(name, j)[|name|..];
      NatToStringInjective(i + 1, j + 1);
    }
  }
}
