// The designation view: a click cycles a contact's mark, a key press
// sets or clears a one-letter filter on electrode labels, and each
// contact is coloured by its marks.

module DesignationPage {
  import opened JsValues
  import opened Electrodes
  import SeqOps
  import ContactDesignation

  /** JavaScript's `%`, whose result takes the sign of the dividend. */
  function JsRem(a: int, n: int): (r: int)
    requires n > 0
    ensures a >= 0 ==> 0 <= r < n && r == a % n
    ensures a < 0 ==> -n < r <= 0
  {
    if a >= 0 then a % n else -((-a) % n)
  }

  /** The change a click hands to updateContact: `mark: (contact.mark + 1) % 4`. */
  function CycleMark(c: Contact): Contact
  {
    c.(mark := JsRem(c.mark + 1, 4))
  }

  /**
   * A mark in 0..3 stays in 0..3, moving to the next one and from 3 back
   * to 0; nothing but the mark changes.
   */
  lemma CycleMarkFacts(c: Contact)
    requires 0 <= c.mark <= 3
    ensures 0 <= CycleMark(c).mark <= 3
    ensures CycleMark(c).mark == if c.mark == 3 then 0 else c.mark + 1
    ensures CycleMark(c).(mark := c.mark) == c
  {
  }

  /** Four clicks on a contact whose mark is in 0..3 leave every electrode as it was. */
  lemma FourClicksRestore(electrodes: seq<Electrode>, id: string)
    requires forall e, k :: 0 <= e < |electrodes| && 0 <= k < |electrodes[e].contacts| ==>
      0 <= electrodes[e].contacts[k].mark <= 3
    ensures var once := ContactDesignation.UpdateContact(electrodes, id, CycleMark);
      var twice := ContactDesignation.UpdateContact(once, id, CycleMark);
      var thrice := ContactDesignation.UpdateContact(twice, id, CycleMark);
      ContactDesignation.UpdateContact(thrice, id, CycleMark) == electrodes
  {
    var once := ContactDesignation.UpdateContact(electrodes, id, CycleMark);
    var twice := ContactDesignation.UpdateContact(once, id, CycleMark);
    var thrice := ContactDesignation.UpdateContact(twice, id, CycleMark);
    var four := ContactDesignation.UpdateContact(thrice, id, CycleMark);
    forall e | 0 <= e < |electrodes|
      ensures four[e] == electrodes[e]
    {
      forall k | 0 <= k < |electrodes[e].contacts|
        ensures four[e].contacts[k] == electrodes[e].contacts[k]
      {
        var c := electrodes[e].contacts[k];
        ContactDesignation.UpdateContactFacts(electrodes, id, CycleMark, e, k);
        ContactDesignation.UpdateContactFacts(once, id, CycleMark, e, k);
        ContactDesignation.UpdateContactFacts(twice, id, CycleMark, e, k);
        ContactDesignation.UpdateContactFacts(thrice, id, CycleMark, e, k);
        if c.id == id {
          CycleMarkFacts(c);
          CycleMarkFacts(CycleMark(c));
          CycleMarkFacts(CycleMark(CycleMark(c)));
          CycleMarkFacts(CycleMark(CycleMark(CycleMark(c))));
        }
      }
    }
  }

  // ----- the one-letter filter -----

  /** `toLowerCase` on the ASCII letters. */
  function LowerChar(ch: char): char
  {
    if 'A' <= ch <= 'Z' then (ch as int + 32) as char else ch
  }

  function Lower(s: string): (r: string)
    ensures |r| == |s| && forall i :: 0 <= i < |s| ==> r[i] == LowerChar(s[i])
  {
    seq(|s|, i requires 0 <= i < |s| => LowerChar(s[i]))
  }

  /** `/[a-zA-Z]/.test(key)` on a one-character key. */
  predicate IsLetter(ch: char)
  {
    'a' <= ch <= 'z' || 'A' <= ch <= 'Z'
  }

  predicate StartsWith(s: string, prefix: string)
  {
    |prefix| <= |s| && s[..|prefix|] == prefix
  }

  /** The electrodes shown: all of them, or those whose lower-cased label starts with the filter. */
  function Shown(electrodes: seq<Electrode>, filterChar: string): (r: seq<Electrode>)
    ensures filterChar == "" ==> r == electrodes
    ensures forall i :: 0 <= i < |r| ==> r[i] in electrodes && StartsWith(Lower(r[i].name), filterChar)
    ensures forall i :: 0 <= i < |electrodes| && StartsWith(Lower(electrodes[i].name), filterChar) ==>
      electrodes[i] in r
  {
    if filterChar == "" then electrodes
    else
      var p := (e: Electrode) => StartsWith(Lower(e.name), filterChar);
      var r := SeqOps.Filter(electrodes, p);
      forall i | 0 <= i < |r|
        ensures r[i] in electrodes && StartsWith(Lower(r[i].name), filterChar)
      {
        SeqOps.FilterMember(electrodes, p, r[i]);
      }
      forall i | 0 <= i < |electrodes| && StartsWith(Lower(electrodes[i].name), filterChar)
        ensures electrodes[i] in r
      {
        SeqOps.FilterMember(electrodes, p, electrodes[i]);
      }
      r
  }

  /** The filter after a keydown with `key` and `keyCode`. */
  function KeyDown(filterChar: string, key: string, keyCode: int): string
  {
    if key == "Escape" || key == "Backspace" || keyCode == 8 || Lower(key) == filterChar then ""
    else if |key| == 1 && IsLetter(key[0]) then Lower(key)
    else filterChar
  }

  /** What the filter can hold: nothing, or one lower-case letter. */
  predicate FilterValue(f: string)
  {
    f == "" || (|f| == 1 && 'a' <= f[0] <= 'z')
  }

  /**
   * The keydown state machine: Escape, Backspace (by name or key code 8)
   * and the current letter again, in either case, clear the filter; any
   * other single letter becomes the filter in lower case; every other key
   * leaves it. The filter only ever holds nothing or one lower-case letter.
   */
  lemma KeyDownFacts(filterChar: string, key: string, keyCode: int)
    requires FilterValue(filterChar)
    ensures var r := KeyDown(filterChar, key, keyCode);
      FilterValue(r) &&
      (key == "Escape" || key == "Backspace" || keyCode == 8 ==> r == "") &&
      (|key| == 1 && IsLetter(key[0]) && key != "Escape" && keyCode != 8 ==>
         r == (if [LowerChar(key[0])] == filterChar then "" else [LowerChar(key[0])])) &&
      ((!(|key| == 1 && IsLetter(key[0])) && key != "Escape" && key != "Backspace" && keyCode != 8 &&
        Lower(key) != filterChar) ==> r == filterChar)
  {
    var r := KeyDown(filterChar, key, keyCode);
    if |key| == 1 && IsLetter(key[0]) {
      assert Lower(key) == [LowerChar(key[0])];
    }
  }

  /** The same letter pressed twice leaves the filter empty, unless it already held that letter, which it then holds again. */
  lemma LetterTwice(filterChar: string, key: string, keyCode: int)
    requires FilterValue(filterChar) && |key| == 1 && IsLetter(key[0]) && keyCode != 8
    ensures KeyDown(KeyDown(filterChar, key, keyCode), key, keyCode) ==
      if filterChar == Lower(key) then Lower(key) else ""
  {
    assert key != "Escape" && key != "Backspace";
  }

  // ----- colours -----

  /** The background class of a mark in 0..3; no class for any other mark. */
  function Background(mark: int): string
  {
    if mark == 0 then "bg-white "
    else if mark == 1 then "bg-rose-300 "
    else if mark == 2 then "bg-amber-300 "
    else if mark == 3 then "bg-stone-300 "
    else ""
  }

  const ThickBorder := "border-2 border-stone-500"
  const ThinBorder := "border border-gray-300"

  predicate EndsWith(s: string, suffix: string)
  {
    |suffix| <= |s| && s[|s| - |suffix|..] == suffix
  }

  /** getMarkColor: the mark's background class, then the border class. */
  function MarkColor(c: Contact): string
  {
    Background(c.mark) + (if c.surgeonMark then ThickBorder else ThinBorder)
  }

  /**
   * The colour starts with the background of the mark (none outside
   * 0..3) and ends with the thick border exactly when the surgeon marked
   * the contact, with the thin one otherwise.
   */
  lemma MarkColorFacts(c: Contact)
    ensures var r := MarkColor(c);
      StartsWith(r, Background(c.mark)) &&
      (EndsWith(r, ThickBorder) <==> c.surgeonMark) &&
      (EndsWith(r, ThinBorder) <==> !c.surgeonMark)
  {
    var bg := Background(c.mark);
    var border := if c.surgeonMark then ThickBorder else ThinBorder;
    var r := MarkColor(c);
    assert r == bg + border;
    assert r[..|bg|] == bg && r[|r| - |border|..] == border;
    if c.surgeonMark {
      assert r[|r| - 3] == '5';
      assert !EndsWith(r, ThinBorder) by { assert ThinBorder[|ThinBorder| - 3] == '3'; }
    } else {
      assert r[|r| - 3] == '3';
      assert !EndsWith(r, ThickBorder) by { assert ThickBorder[|ThickBorder| - 3] == '5'; }
    }
  }
}
