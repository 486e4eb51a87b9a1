// The stimulation-planning contact page: dropping a contact on the
// planning list or back on the contact list, the ids given to every
// contact, the pairing click, and the planning list a page starts with.

module ContactSelection {
  import opened JsValues
  import opened Electrodes
  import SeqOps
  import ContactDesignation

  // ----- splice -----

  /** Where `Array.prototype.splice` starts on an array of length len: negative starts count from the end. */
  function SpliceStart(len: nat, start: int): (r: nat)
    ensures r <= len
    ensures 0 <= start <= len ==> r == start
    ensures start > len ==> r == len
    ensures start < 0 && len + start >= 0 ==> r == len + start
  {
    if start < 0 then Max(len + start, 0) else Min(start, len)
  }

  /** `s.splice(start, 0, x)`: x inserted before the element at the start, the others kept in order. */
  function InsertAt<T>(s: seq<T>, start: int, x: T): (r: seq<T>)
    ensures var i := SpliceStart(|s|, start);
      |r| == |s| + 1 && r[i] == x && r[..i] == s[..i] && r[i + 1..] == s[i..]
    ensures multiset(r) == multiset(s) + multiset{x}
  {
    var i := SpliceStart(|s|, start);
    assert s == s[..i] + s[i..];
    s[..i] + [x] + s[i..]
  }

  /** `s.splice(start, 1)`: the removed elements (at most one) and what is left. */
  function RemoveOne<T>(s: seq<T>, start: int): (r: (seq<T>, seq<T>))
    ensures var i := SpliceStart(|s|, start);
      (i < |s| ==> r.0 == [s[i]] && r.1 == s[..i] + s[i + 1..]) &&
      (i == |s| ==> r.0 == [] && r.1 == s)
    ensures multiset(r.0) + multiset(r.1) == multiset(s)
  {
    var i := SpliceStart(|s|, start);
    if i < |s| then
      assert s == s[..i] + [s[i]] + s[i + 1..];
      ([s[i]], s[..i] + s[i + 1..])
    else ([], s)
  }

  // ----- the planning list -----

  /**
   * An entry of the planning list. The list holds contact objects, and
   * `indexOf` finds an object by identity, so each entry carries the
   * reference of the object it is.
   */
  datatype Item = Item(ref: nat, contact: Contact)

  /** The drop position: none given (`""`), or a slot index. */
  datatype Where = AtEnd | At(index: int)

  /** The index after the updater's two guards: none or one past the end becomes the length. */
  function Clamped(where: Where, len: nat): (r: int)
    ensures r <= len
    ensures where.AtEnd? ==> r == len
    ensures where.At? && where.index <= len ==> r == where.index
  {
    var i := if where.AtEnd? then len else where.index;
    if i > len then len else i
  }

  /** `prev.some(c => c.id === id)`. */
  predicate HasId(s: seq<Item>, id: string)
  {
    exists k :: 0 <= k < |s| && s[k].contact.id == id
  }

  /** `s.indexOf(item)`: the first entry that is the same object, -1 when there is none. */
  function IndexOf(s: seq<Item>, item: Item): (r: int)
    ensures -1 <= r < |s|
    ensures r == -1 <==> forall k :: 0 <= k < |s| ==> s[k].ref != item.ref
    ensures r >= 0 ==> s[r].ref == item.ref && forall k :: 0 <= k < r ==> s[k].ref != item.ref
  {
    if s == [] then -1
    else if s[0].ref == item.ref then 0
    else
      var r := IndexOf(s[1..], item);
      assert forall k :: 1 <= k < |s| ==> s[k] == s[1..][k - 1];
      if r == -1 then -1 else r + 1
  }

  /** The list with the entry at `from` taken out and spliced back in at `at`. */
  function Moved(prev: seq<Item>, from: nat, at: int): seq<Item>
    requires from < |prev|
  {
    InsertAt(prev[..from] + prev[from + 1..], at, prev[from])
  }

  /** A move keeps the entries, puts the moved one at the slot `at` names, and keeps the others in order. */
  lemma MovedFacts(prev: seq<Item>, from: nat, at: int)
    requires from < |prev|
    ensures var r := Moved(prev, from, at);
      var rest := prev[..from] + prev[from + 1..];
      var q := SpliceStart(|rest|, at);
      |r| == |prev| && multiset(r) == multiset(prev) && r[q] == prev[from] && r[..q] + r[q + 1..] == rest
  {
    var rest := prev[..from] + prev[from + 1..];
    assert prev == prev[..from] + [prev[from]] + prev[from + 1..];
    var r := Moved(prev, from, at);
    var q := SpliceStart(|rest|, at);
    assert r[..q] + r[q + 1..] == rest[..q] + rest[q..];
    assert rest[..q] + rest[q..] == rest;
  }

  /** The entry a drop of `item` moves: the object itself, or the last entry when indexOf does not find it. */
  function MovedFrom(prev: seq<Item>, item: Item): (r: nat)
    requires prev != []
    ensures r < |prev|
  {
    var i := IndexOf(prev, item);
    if i == -1 then |prev| - 1 else i
  }

  /** When the dropped object is another one with an id on the list, it is not on the list after the move. */
  lemma ForeignObjectNotAdded(prev: seq<Item>, item: Item, at: int)
    requires prev != [] && IndexOf(prev, item) == -1
    ensures item !in Moved(prev, MovedFrom(prev, item), at)
  {
    MovedFacts(prev, MovedFrom(prev, item), at);
    assert item !in prev by {
      forall k | 0 <= k < |prev|
        ensures prev[k] != item
      {
      }
    }
    assert item !in multiset(Moved(prev, MovedFrom(prev, item), at));
  }

  /**
   * The planning-list updater of handleDropToPlanning. A contact whose id
   * is not on the list is inserted at the clamped index. A contact whose
   * id is there is moved (MovedFacts): a drop just below the object's own
   * place changes nothing, and otherwise the object goes to the slot the
   * index names in the list without it. indexOf works by identity, so for
   * another object with the same id it gives -1 and the entry moved is the
   * last one (ForeignObjectNotAdded).
   */
  method DropToPlanning(prev: seq<Item>, item: Item, where: Where) returns (r: seq<Item>)
    ensures var p := SpliceStart(|prev|, Clamped(where, |prev|));
      !HasId(prev, item.contact.id) ==>
        r == prev[..p] + [item] + prev[p..] && multiset(r) == multiset(prev) + multiset{item}
    ensures HasId(prev, item.contact.id) && Clamped(where, |prev|) == IndexOf(prev, item) + 1 ==> r == prev
    ensures HasId(prev, item.contact.id) && Clamped(where, |prev|) != IndexOf(prev, item) + 1 ==>
      r == Moved(prev, MovedFrom(prev, item), Clamped(where, |prev|))
  {
    var index := Clamped(where, |prev|);
    var newContacts := prev;
    if HasId(prev, item.contact.id) {
      var oldIndex := IndexOf(prev, item);
      if index == oldIndex + 1 {
        return prev;
      }
      var removed := RemoveOne(newContacts, oldIndex);
      ghost var from := SpliceStart(|prev|, oldIndex);
      assert from == MovedFrom(prev, item);
      assert removed.0 == [prev[from]] && removed.1 == prev[..from] + prev[from + 1..];
      newContacts := InsertAt(removed.1, index, removed.0[0]);
    } else {
      newContacts := InsertAt(newContacts, index, item);
    }
    r := newContacts;
  }

  /** The planning-list updater of handleDropBackToList: every entry with the id leaves. */
  function DropBackPlanning(prev: seq<Item>, id: string): seq<Item>
  {
    SeqOps.Filter(prev, (x: Item) => x.contact.id != id)
  }

  /** After a drop back the list holds exactly the entries it had with another id. */
  lemma DropBackFacts(prev: seq<Item>, id: string)
    ensures forall x :: x in DropBackPlanning(prev, id) <==> x in prev && x.contact.id != id
    ensures !HasId(DropBackPlanning(prev, id), id)
  {
    var r := DropBackPlanning(prev, id);
    forall x
      ensures x in r <==> x in prev && x.contact.id != id
    {
      SeqOps.FilterMember(prev, (x: Item) => x.contact.id != id, x);
    }
    forall k | 0 <= k < |r|
      ensures r[k].contact.id != id
    {
      assert r[k] in r;
    }
  }

  lemma {:induction false} DropBackKeepsAll(s: seq<Item>, id: string)
    requires !HasId(s, id)
    ensures DropBackPlanning(s, id) == s
    decreases |s|
  {
    if s != [] {
      assert !HasId(s[1..], id) by {
        forall k | 0 <= k < |s[1..]|
          ensures s[1..][k].contact.id != id
        {
          assert s[1..][k] == s[k + 1];
        }
      }
      DropBackKeepsAll(s[1..], id);
      assert s[0].contact.id != id;
    }
  }

  lemma {:induction false} DropBackAppend(a: seq<Item>, b: seq<Item>, id: string)
    ensures DropBackPlanning(a + b, id) == DropBackPlanning(a, id) + DropBackPlanning(b, id)
    decreases |a|
  {
    if a != [] {
      assert (a + b)[0] == a[0];
      assert (a + b)[1..] == a[1..] + b;
      DropBackAppend(a[1..], b, id);
      var fa := DropBackPlanning(a[1..], id);
      var fb := DropBackPlanning(b, id);
      assert [a[0]] + (fa + fb) == [a[0]] + fa + fb;
    } else {
      assert a + b == b;
    }
  }

  /** Dropping a contact whose id is new and dropping it back gives the list there was. */
  lemma DropBackUndoesNewDrop(prev: seq<Item>, item: Item, p: nat)
    requires p <= |prev| && !HasId(prev, item.contact.id)
    ensures DropBackPlanning(prev[..p] + [item] + prev[p..], item.contact.id) == prev
  {
    var id := item.contact.id;
    assert !HasId(prev[..p], id) && !HasId(prev[p..], id) by {
      forall k | 0 <= k < p
        ensures prev[..p][k].contact.id != id
      {
        assert prev[..p][k] == prev[k];
      }
      forall k | 0 <= k < |prev| - p
        ensures prev[p..][k].contact.id != id
      {
        assert prev[p..][k] == prev[p + k];
      }
    }
    DropBackAppend(prev[..p] + [item], prev[p..], id);
    DropBackAppend(prev[..p], [item], id);
    DropBackKeepsAll(prev[..p], id);
    DropBackKeepsAll(prev[p..], id);
    assert DropBackPlanning([item], id) == [];
    assert prev[..p] + prev[p..] == prev;
  }

  // ----- the electrodes -----

  /** The electrode updaters of both drops: contacts with the id get the planning flag. */
  function PlanningFlagged(electrodes: seq<Electrode>, id: string, flag: bool): seq<Electrode>
  {
    ContactDesignation.UpdateContact(electrodes, id, (c: Contact) => c.(isPlanning := flag))
  }

  /** Exactly the contacts with the id get the flag; every other field and contact stays. */
  lemma PlanningFlaggedFacts(electrodes: seq<Electrode>, id: string, flag: bool, e: nat, k: nat)
    requires e < |electrodes| && k < |electrodes[e].contacts|
    ensures var r := PlanningFlagged(electrodes, id, flag);
      var c := electrodes[e].contacts[k];
      |r| == |electrodes| && r[e].name == electrodes[e].name && |r[e].contacts| == |electrodes[e].contacts| &&
      (c.id == id ==> r[e].contacts[k] == c.(isPlanning := flag)) &&
      (c.id != id ==> r[e].contacts[k] == c)
  {
    ContactDesignation.UpdateContactFacts(electrodes, id, (c: Contact) => c.(isPlanning := flag), e, k);
  }

  /** Dropping a contact that was not planned and dropping it back leaves the electrodes as they were. */
  lemma DropBackRestoresElectrodes(electrodes: seq<Electrode>, id: string)
    requires forall e, k :: (0 <= e < |electrodes| && 0 <= k < |electrodes[e].contacts| &&
                             electrodes[e].contacts[k].id == id) ==> !electrodes[e].contacts[k].isPlanning
    ensures PlanningFlagged(PlanningFlagged(electrodes, id, true), id, false) == electrodes
  {
    var mid := PlanningFlagged(electrodes, id, true);
    var last := PlanningFlagged(mid, id, false);
    forall e | 0 <= e < |electrodes|
      ensures last[e] == electrodes[e]
    {
      forall k | 0 <= k < |electrodes[e].contacts|
        ensures last[e].contacts[k] == electrodes[e].contacts[k]
      {
        PlanningFlaggedFacts(electrodes, id, true, e, k);
        PlanningFlaggedFacts(mid, id, false, e, k);
      }
    }
  }

  // ----- contact ids -----

  /** Every contact named after its electrode and position, and labelled with its electrode. */
  function WithIds(electrodes: seq<Electrode>): (r: seq<Electrode>)
    ensures |r| == |electrodes|
    ensures forall e :: 0 <= e < |r| ==> r[e].name == electrodes[e].name && |r[e].contacts| == |electrodes[e].contacts|
  {
    seq(|electrodes|, e requires 0 <= e < |electrodes| =>
      electrodes[e].(contacts := seq(|electrodes[e].contacts|, k requires 0 <= k < |electrodes[e].contacts| =>
        electrodes[e].contacts[k].(id := ContactId(electrodes[e].name, k), electrodeLabel := electrodes[e].name))))
  }

  /**
   * After the ids are given, contact k of an electrode has id label +
   * (k + 1) and its electrode's label, no two contacts of an electrode
   * share an id, and nothing else about a contact changes.
   */
  lemma WithIdsFacts(electrodes: seq<Electrode>, e: nat, k: nat)
    requires e < |electrodes| && k < |electrodes[e].contacts|
    ensures var c := WithIds(electrodes)[e].contacts[k];
      var before := electrodes[e].contacts[k];
      c.id == electrodes[e].name + NatToString(k + 1) && c.electrodeLabel == electrodes[e].name &&
      c.(id := before.id, electrodeLabel := before.electrodeLabel) == before
    ensures forall j :: 0 <= j < |electrodes[e].contacts| && j != k ==>
      WithIds(electrodes)[e].contacts[j].id != WithIds(electrodes)[e].contacts[k].id
  {
    forall j | 0 <= j < |electrodes[e].contacts| && j != k
      ensures WithIds(electrodes)[e].contacts[j].id != WithIds(electrodes)[e].contacts[k].id
    {
      ContactIdsDistinct(electrodes[e].name, j, k);
    }
  }

  /** Giving the ids again changes nothing, as happens on every render. */
  lemma WithIdsIdempotent(electrodes: seq<Electrode>)
    ensures WithIds(WithIds(electrodes)) == WithIds(electrodes)
  {
    var once := WithIds(electrodes);
    var twice := WithIds(once);
    forall e | 0 <= e < |electrodes|
      ensures twice[e] == once[e]
    {
      assert twice[e].contacts == once[e].contacts;
    }
  }

  /** The render-time loop: each contact of each electrode in turn gets its id and its electrode's label. */
  method AssignIds(electrodes: seq<Electrode>) returns (r: seq<Electrode>)
    ensures r == WithIds(electrodes)
  {
    ghost var target := WithIds(electrodes);
    r := electrodes;
    for e := 0 to |electrodes|
      invariant |r| == |electrodes|
      invariant forall j :: 0 <= j < e ==> r[j] == target[j]
      invariant forall j :: e <= j < |r| ==> r[j] == electrodes[j]
    {
      var contacts := r[e].contacts;
      for k := 0 to |contacts|
        invariant |contacts| == |electrodes[e].contacts|
        invariant forall j :: 0 <= j < k ==> contacts[j] == target[e].contacts[j]
        invariant forall j :: k <= j < |contacts| ==> contacts[j] == electrodes[e].contacts[j]
      {
        contacts := contacts[k := contacts[k].(id := ContactId(r[e].name, k), electrodeLabel := r[e].name)];
      }
      r := r[e := r[e].(contacts := contacts)];
    }
  }

  // ----- pairing -----

  /** The clicked contact's next pair (1-based) from its pair, its index and the electrode's size. */
  function NextPair(pair: int, index: int, count: nat): int
  {
    if pair == index - 1 then
      if count <= index then pair + 1 else pair + 2
    else if pair - 1 < 1 && index == 2 && count > 2 then pair + 2
    else if pair - 1 < 1 && (index == 1 || index == 2) then pair + 1
    else pair - 1
  }

  /**
   * On an electrode of at least two contacts, from a pair and an index in
   * range the next pair is in range, except for a contact at index 3 or
   * beyond paired with the first one, which gets pair 0. A contact paired
   * with the one before it moves two on, or, when it is the last contact,
   * is paired with itself.
   */
  lemma NextPairRange(pair: int, index: int, count: nat)
    requires count >= 2 && 1 <= index <= count && 1 <= pair <= count
    ensures NextPair(pair, index, count) == 0 <==> pair == 1 && index >= 3
    ensures NextPair(pair, index, count) != 0 ==> 1 <= NextPair(pair, index, count) <= count
    ensures pair == index - 1 && index < count ==> NextPair(pair, index, count) == index + 1
    ensures pair == index - 1 && index == count ==> NextPair(pair, index, count) == index
  {
  }

  /** The clicked contact's pair after its old partner was reset, which touches it when it was its own partner. */
  function PairAfterReset(contacts: seq<Contact>, position: nat): int
    requires position < |contacts|
  {
    var c := contacts[position];
    if c.pair - 1 == position then c.index else c.pair
  }

  /**
   * changePair on the electrode holding the clicked contact at `position`:
   * nothing happens on an electrode of at most one contact; a pair that
   * names no contact (the clicked contact's, its next one, or the new
   * partner's) throws on the property access. Otherwise the state gets
   * copies of the contacts taken before any change, in which only pairs
   * differ: the new partner points back to the clicked contact, the new
   * partner's previous partner is paired with itself, and every other
   * contact, the clicked contact's own copy included, keeps its pair.
   */
  method ChangePair(contacts: seq<Contact>, position: nat) returns (r: Outcome<Option<seq<Contact>>>)
    requires position < |contacts|
    ensures |contacts| <= 1 ==> r == Ok(None)
    ensures r.Ok? && r.value.Some? ==>
      var u := r.value.value;
      |u| == |contacts| && forall k :: 0 <= k < |u| ==> u[k] == contacts[k].(pair := u[k].pair)
    ensures |contacts| >= 2 && !(1 <= contacts[position].pair <= |contacts|) ==> r == Err(TypeError)
    ensures var next := NextPair(PairAfterReset(contacts, position), contacts[position].index, |contacts|);
      r.Ok? && r.value.Some? ==>
        1 <= next <= |contacts| && r.value.value[next - 1].pair == contacts[position].index
    ensures var next := NextPair(PairAfterReset(contacts, position), contacts[position].index, |contacts|);
      |contacts| >= 2 && 1 <= contacts[position].pair <= |contacts| && !(1 <= next <= |contacts|) ==> r == Err(TypeError)
    ensures var next := NextPair(PairAfterReset(contacts, position), contacts[position].index, |contacts|);
      |contacts| >= 2 && 1 <= contacts[position].pair <= |contacts| && 1 <= next <= |contacts| ==>
        (r.Ok? <==> 1 <= contacts[next - 1].pair <= |contacts|) && (r.Err? ==> r == Err(TypeError))
    ensures var next := NextPair(PairAfterReset(contacts, position), contacts[position].index, |contacts|);
      r.Ok? && r.value.Some? ==>
        forall k :: 0 <= k < |contacts| ==>
          r.value.value[k].pair ==
            if k == next - 1 then contacts[position].index
            else if k == contacts[next - 1].pair - 1 then contacts[k].index
            else contacts[k].pair
    ensures var next := NextPair(PairAfterReset(contacts, position), contacts[position].index, |contacts|);
      r.Ok? && r.value.Some? && next - 1 != position && contacts[next - 1].pair - 1 != position ==>
        r.value.value[position].pair == contacts[position].pair
  {
    if |contacts| <= 1 {
      return Ok(None);
    }
    var updated := contacts;
    var live := contacts;
    var pair := live[position].pair;
    if !(1 <= pair <= |live|) {
      return Err(TypeError);
    }
    live := live[pair - 1 := live[pair - 1].(pair := live[pair - 1].index)];
    var contact := live[position];
    var next := NextPair(contact.pair, contact.index, |live|);
    live := live[position := contact.(pair := next)];
    if !(1 <= next <= |updated|) {
      return Err(TypeError);
    }
    var newPaired := updated[next - 1];
    if !(1 <= newPaired.pair <= |updated|) {
      return Err(TypeError);
    }
    updated := updated[newPaired.pair - 1 := updated[newPaired.pair - 1].(pair := updated[newPaired.pair - 1].index)];
    updated := updated[next - 1 := updated[next - 1].(pair := contact.index)];
    r := Ok(Some(updated));
  }

  // ----- the initial planning list -----

  /** The comparator `a.order - b.order` is at most 0. */
  predicate ByOrder(a: Contact, b: Contact)
  {
    a.order <= b.order
  }

  /** The planned contacts of every electrode, electrode by electrode. */
  function Planned(electrodes: seq<Electrode>): seq<Contact>
  {
    if electrodes == [] then []
    else SeqOps.Filter(electrodes[0].contacts, (c: Contact) => c.isPlanning) + Planned(electrodes[1..])
  }

  /** A contact is among the planned ones exactly when it is planned and on some electrode. */
  lemma {:induction false} PlannedMember(electrodes: seq<Electrode>, x: Contact)
    ensures x in Planned(electrodes) <==>
      x.isPlanning && exists e :: 0 <= e < |electrodes| && x in electrodes[e].contacts
    decreases |electrodes|
  {
    if electrodes != [] {
      PlannedMember(electrodes[1..], x);
      SeqOps.FilterMember(electrodes[0].contacts, (c: Contact) => c.isPlanning, x);
      if exists e :: 0 <= e < |electrodes| && x in electrodes[e].contacts {
        var e :| 0 <= e < |electrodes| && x in electrodes[e].contacts;
        if e > 0 {
          assert electrodes[1..][e - 1] == electrodes[e];
        }
      }
      if exists e :: 0 <= e < |electrodes[1..]| && x in electrodes[1..][e].contacts {
        var e :| 0 <= e < |electrodes[1..]| && x in electrodes[1..][e].contacts;
        assert electrodes[e + 1] == electrodes[1..][e];
      }
    }
  }

  /** The saved list when there is one; else the planned contacts of the loaded data by order; else none. */
  function InitialPlanning(saved: Option<seq<Contact>>, data: Option<seq<Electrode>>): seq<Contact>
  {
    if saved.Some? then saved.value
    else if data.Some? then SeqOps.Sort(Planned(data.value), ByOrder)
    else []
  }

  /**
   * Without a saved list the initial planning list holds exactly the
   * planned contacts of the loaded electrodes, each as often as there,
   * in increasing `order`; contacts of equal order keep the order in
   * which the electrodes list them.
   */
  lemma InitialPlanningFacts(saved: Option<seq<Contact>>, data: Option<seq<Electrode>>)
    ensures saved.Some? ==> InitialPlanning(saved, data) == saved.value
    ensures saved.None? && data.None? ==> InitialPlanning(saved, data) == []
    ensures saved.None? && data.Some? ==>
      var r := InitialPlanning(saved, data);
      SeqOps.SortedBy(r, ByOrder) && multiset(r) == multiset(Planned(data.value)) &&
      forall x :: x in r <==> x.isPlanning && exists e :: 0 <= e < |data.value| && x in data.value[e].contacts
    ensures saved.None? && data.Some? ==>
      forall y :: SeqOps.Filter(InitialPlanning(saved, data), SeqOps.Ties(ByOrder, y)) ==
                  SeqOps.Filter(Planned(data.value), SeqOps.Ties(ByOrder, y))
  {
    if saved.None? && data.Some? {
      assert SeqOps.TotalPreorder(ByOrder);
      SeqOps.SortSorted(Planned(data.value), ByOrder);
      forall y
        ensures SeqOps.Filter(InitialPlanning(saved, data), SeqOps.Ties(ByOrder, y)) ==
                SeqOps.Filter(Planned(data.value), SeqOps.Ties(ByOrder, y))
      {
        SeqOps.SortStable(Planned(data.value), ByOrder, y);
      }
      forall x
        ensures x in InitialPlanning(saved, data) <==>
          x.isPlanning && exists e :: 0 <= e < |data.value| && x in data.value[e].contacts
      {
        SeqOps.SortMember(Planned(data.value), ByOrder, x);
        PlannedMember(data.value, x);
      }
    }
  }
}
