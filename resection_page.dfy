// The resection view's rules: which header dimension a view direction
// slices, how a wheel step moves the slice, how an electrode coordinate
// is shifted into voxel space, what a click on a contact does, and how a
// click on a small view swaps it with the main one.

module ResectionPage {
  import opened JsValues
  import opened Electrodes
  import ContactDesignation

  /** getDirectionDimension: the header dimension a view direction slices. */
  function DirectionDimension(dir: string): (d: int)
    ensures 1 <= d <= 3
    ensures dir == "Sagittal" <==> d == 1
    ensures dir == "Coronal" <==> d == 2
  {
    match dir
    case "Axial" => 3
    case "Coronal" => 2
    case "Sagittal" => 1
    case _ => 3
  }

  /** The side length of the main view, used when a direction is none of 1, 2 and 3. */
  const FixedMainViewSize := 600

  /** getCanvasDimensions: the columns and rows of a slice taken across dimension d. */
  function CanvasDimensions(dim: seq<int>, d: int): (int, int)
    requires |dim| == 8
  {
    if d == 1 then (dim[2], dim[3])
    else if d == 2 then (dim[1], dim[3])
    else if d == 3 then (dim[1], dim[2])
    else (FixedMainViewSize, FixedMainViewSize)
  }

  /**
   * A slice across dimension d in 1..3 shows the other two spatial
   * dimensions, the lower-numbered one as columns.
   */
  lemma CanvasShowsOtherAxes(dim: seq<int>, d: int)
    requires |dim| == 8 && 1 <= d <= 3
    ensures exists a, b :: 1 <= a < b <= 3 && a != d && b != d && CanvasDimensions(dim, d) == (dim[a], dim[b])
  {
    if d == 1 {
      assert CanvasDimensions(dim, d) == (dim[2], dim[3]);
    } else if d == 2 {
      assert CanvasDimensions(dim, d) == (dim[1], dim[3]);
    } else {
      assert CanvasDimensions(dim, d) == (dim[1], dim[2]);
    }
  }

  // ----- scrolling -----

  /** `Math.sign` on the numbers modelled here. */
  function Sign(x: real): int
  {
    if x > 0.0 then 1 else if x < 0.0 then -1 else 0
  }

  /** handleScroll: `Math.max(0, Math.min(current - Math.sign(deltaY), max - 1))`. */
  function Scroll(current: int, deltaY: real, max: int): (r: int)
  {
    Max(0, Min(current - Sign(deltaY), max - 1))
  }

  /**
   * The new slice lies in 0..max-1 (0 when there are no slices); it is
   * one step back when the wheel turns down and one forward when it turns
   * up, unless that step leaves the range, where it stops at the end.
   */
  lemma ScrollFacts(current: int, deltaY: real, max: int)
    ensures var r := Scroll(current, deltaY, max);
      (max >= 1 ==> 0 <= r <= max - 1) && (max < 1 ==> r == 0) &&
      (0 <= current - Sign(deltaY) <= max - 1 ==> r == current - Sign(deltaY)) &&
      (deltaY > 0.0 && 0 <= current <= max - 1 ==> r == Max(current - 1, 0)) &&
      (deltaY < 0.0 && 0 <= current <= max - 1 ==> r == Min(current + 1, max - 1))
  {
  }

  // ----- coordinates -----

  /** A row of the coordinate file: a position in RAS millimetres around the centre, and its contact. */
  datatype Coord = Coord(x: real, y: real, z: real, electrode: string, contact: string)

  /** What transformCoordinates returns: the row itself, or a marker position. */
  datatype Marker =
    | AsRead(coord: Coord)
    | Placed(x: real, y: real, z: real, name: string, id: string)

  /** transformCoordinates, with `dims` the loaded volume's dim, if any. */
  function TransformCoordinates(dims: Option<seq<int>>, coord: Coord): (r: Marker)
    requires dims.Some? ==> |dims.value| == 8
  {
    match dims
    case None => AsRead(coord)
    case Some(dim) =>
      Placed(coord.x + (dim[1] - 1) as real / 2.0, coord.y + (dim[2] - 1) as real / 2.0,
             coord.z + (dim[3] - 1) as real / 2.0, coord.electrode, coord.electrode + coord.contact)
  }

  /**
   * Without a volume the row comes back as it is; with one, the centre of
   * the volume becomes its corner: the origin moves to ((n - 1) / 2) on
   * each axis, so the centre voxel of an odd-sized axis is reached from 0.
   */
  lemma TransformCoordinatesFacts(dims: Option<seq<int>>, coord: Coord)
    requires dims.Some? ==> |dims.value| == 8
    ensures dims.None? ==> TransformCoordinates(dims, coord) == AsRead(coord)
    ensures dims.Some? ==> var m := TransformCoordinates(dims, coord);
      m.Placed? && m.name == coord.electrode && m.id == coord.electrode + coord.contact &&
      2.0 * (m.x - coord.x) == (dims.value[1] - 1) as real &&
      2.0 * (m.y - coord.y) == (dims.value[2] - 1) as real &&
      2.0 * (m.z - coord.z) == (dims.value[3] - 1) as real
  {
  }

  // ----- clicks on a contact -----

  function ToggleSurgeonMark(c: Contact): Contact { c.(surgeonMark := !c.surgeonMark) }

  function SetFocus(c: Contact): Contact { c.(focus := true) }

  /** What the click counter has done when its effect runs: electrodes, the focused contact, and the new count. */
  datatype Clicked = Clicked(electrodes: seq<Electrode>, focused: Option<Contact>, count: int)

  /**
   * The Contact component's effect: one click (after the 200 ms wait)
   * toggles the surgeon mark, two set focus and make this contact the
   * focused one; either resets the count. Any other count does nothing.
   */
  function OnClickCount(count: int, electrodes: seq<Electrode>, contact: Contact): (r: Clicked)
    ensures count == 1 ==> r.count == 0 && r.focused.None?
    ensures count == 2 ==> r.count == 0 && r.focused == Some(contact)
    ensures count != 1 && count != 2 ==> r == Clicked(electrodes, None, count)
  {
    if count == 1 then Clicked(ContactDesignation.UpdateContact(electrodes, contact.id, ToggleSurgeonMark), None, 0)
    else if count == 2 then Clicked(ContactDesignation.UpdateContact(electrodes, contact.id, SetFocus), Some(contact), 0)
    else Clicked(electrodes, None, count)
  }

  /** Two single clicks on a contact leave every electrode as it was. */
  lemma TwoSingleClicksRestore(electrodes: seq<Electrode>, contact: Contact)
    ensures OnClickCount(1, OnClickCount(1, electrodes, contact).electrodes, contact).electrodes == electrodes
  {
    var once := OnClickCount(1, electrodes, contact).electrodes;
    var twice := OnClickCount(1, once, contact).electrodes;
    forall e | 0 <= e < |electrodes|
      ensures twice[e] == electrodes[e]
    {
      forall k | 0 <= k < |electrodes[e].contacts|
        ensures twice[e].contacts[k] == electrodes[e].contacts[k]
      {
        ContactDesignation.UpdateContactFacts(electrodes, contact.id, ToggleSurgeonMark, e, k);
        ContactDesignation.UpdateContactFacts(once, contact.id, ToggleSurgeonMark, e, k);
      }
    }
  }

  /** A double click sets focus on every contact with the clicked id and on no other, and changes nothing else. */
  lemma DoubleClickFocuses(electrodes: seq<Electrode>, contact: Contact, e: nat, k: nat)
    requires e < |electrodes| && k < |electrodes[e].contacts|
    ensures var c := electrodes[e].contacts[k];
      var after := OnClickCount(2, electrodes, contact).electrodes[e].contacts[k];
      (c.id == contact.id ==> after == c.(focus := true)) && (c.id != contact.id ==> after == c)
  {
    ContactDesignation.UpdateContactFacts(electrodes, contact.id, SetFocus, e, k);
  }

  // ----- the main view and the two small views -----

  datatype Canvas = Canvas(direction: string, slice: int, maxSlices: int)

  datatype Views = Views(main: Canvas, sub0: Canvas, sub1: Canvas)

  /** The number of slices of a direction: the header dimension it slices. */
  function SlicesOf(dim: seq<int>, dir: string): int
    requires |dim| == 8
  {
    dim[DirectionDimension(dir)]
  }

  /**
   * handleSubCanvasClick: the clicked small view (0, or any other index
   * for the second) and the main view exchange directions and slices, and
   * each takes the slice count of its new direction.
   */
  function SubCanvasClick(v: Views, clicked: int, dim: seq<int>): (r: Views)
    requires |dim| == 8
  {
    var target := if clicked == 0 then v.sub0 else v.sub1;
    var main := Canvas(target.direction, target.slice, SlicesOf(dim, target.direction));
    var moved := Canvas(v.main.direction, v.main.slice, SlicesOf(dim, v.main.direction));
    if clicked == 0 then Views(main, moved, v.sub1) else Views(main, v.sub0, moved)
  }

  /** Every view's slice count is that of its direction. */
  predicate Counted(v: Views, dim: seq<int>)
    requires |dim| == 8
  {
    v.main.maxSlices == SlicesOf(dim, v.main.direction) &&
    v.sub0.maxSlices == SlicesOf(dim, v.sub0.direction) &&
    v.sub1.maxSlices == SlicesOf(dim, v.sub1.direction)
  }

  /**
   * A click swaps the main view with the clicked one and leaves the other
   * small view; the slice counts afterwards match the directions; and a
   * second click on the same small view swaps them back.
   */
  lemma SubCanvasClickFacts(v: Views, clicked: int, dim: seq<int>)
    requires |dim| == 8
    ensures var r := SubCanvasClick(v, clicked, dim);
      var target := if clicked == 0 then v.sub0 else v.sub1;
      var after := if clicked == 0 then r.sub0 else r.sub1;
      r.main.direction == target.direction && r.main.slice == target.slice &&
      after.direction == v.main.direction && after.slice == v.main.slice &&
      (clicked == 0 ==> r.sub1 == v.sub1) && (clicked != 0 ==> r.sub0 == v.sub0) &&
      (Counted(v, dim) ==> Counted(r, dim))
    ensures Counted(v, dim) ==> SubCanvasClick(SubCanvasClick(v, clicked, dim), clicked, dim) == v
  {
  }

  // ----- names -----

  /** getMarkName: the name of a mark code, undefined outside 0..3. */
  function MarkName(mark: int): (r: Option<string>)
    ensures r.Some? <==> 0 <= mark <= 3
  {
    if mark == 0 then Some("Not Involved")
    else if mark == 1 then Some("Seizure Onset Zone")
    else if mark == 2 then Some("Seizure Network")
    else if mark == 3 then Some("Out Of Brain")
    else None
  }

  /** Different marks have different names. */
  lemma MarkNamesDistinct(a: int, b: int)
    requires 0 <= a <= 3 && 0 <= b <= 3 && a != b
    ensures MarkName(a) != MarkName(b)
  {
    var na, nb := MarkName(a).value, MarkName(b).value;
    assert na[0] != nb[0] || |na| != |nb|;
  }
}
