// The functional-test page's rules: which catalogue tests a contact may
// get, the best of them, the automatic assignment, adding and removing a
// test, expanding a test's details, and repairing saved tests on load.

module FunctionalTestSelection {
  import opened JsValues
  import opened Electrodes
  import SeqOps

  datatype Test = Test(id: int, name: string, region: string, description: string,
                       population: real, disruptionRate: real, tag: seq<string>)

  /** Tests assigned per contact id. */
  type Assignment = map<string, seq<Test>>

  /**
   * The page's comparator `b.population - a.population ||
   * b.disruptionRate - a.disruptionRate` is at most 0: a has the larger
   * population, or the same one and a disruption rate at least as large.
   */
  predicate Ranks(a: Test, b: Test)
  {
    a.population > b.population || (a.population == b.population && a.disruptionRate >= b.disruptionRate)
  }

  lemma RanksIsTotalPreorder()
    ensures SeqOps.TotalPreorder(Ranks)
  {
  }

  /** selectBestTest: the first test after the stable sort by Ranks. */
  function SelectBest(tests: seq<Test>): Test
    requires |tests| > 0
  {
    SeqOps.Sort(tests, Ranks)[0]
  }

  /**
   * The best test is one of the given tests, no test has a larger
   * population, and none with the same population has a larger
   * disruption rate.
   */
  lemma SelectBestIsBest(tests: seq<Test>)
    requires |tests| > 0
    ensures SelectBest(tests) in tests
    ensures forall t :: t in tests ==>
      (t.population <= SelectBest(tests).population &&
       (t.population == SelectBest(tests).population ==> t.disruptionRate <= SelectBest(tests).disruptionRate))
  {
    RanksIsTotalPreorder();
    SeqOps.SortFirstIsLeast(tests, Ranks);
  }

  /** The tests assigned to a contact id, none when it has no entry. */
  function AssignedTo(tests: Assignment, contactId: string): seq<Test>
  {
    if contactId in tests then tests[contactId] else []
  }

  /** `tests[contact.id]?.some(t => t.id === test.id)`. */
  predicate HasTestId(given: seq<Test>, test: Test)
  {
    exists i :: 0 <= i < |given| && given[i].id == test.id
  }

  /** The catalogue tests for a region. */
  function InRegion(catalog: seq<Test>, region: string): seq<Test>
  {
    SeqOps.Filter(catalog, (t: Test) => t.region == region)
  }

  /** The available list for the selected contact, best first. */
  function Available(catalog: seq<Test>, contact: Contact, tests: Assignment): seq<Test>
  {
    var given := AssignedTo(tests, contact.id);
    SeqOps.Sort(SeqOps.Filter(InRegion(catalog, contact.associatedLocation), (t: Test) => !HasTestId(given, t)), Ranks)
  }

  /**
   * The available list holds exactly the catalogue tests of the contact's
   * region whose id is not yet assigned to it, each as often as in the
   * catalogue, sorted by Ranks.
   */
  lemma AvailableFacts(catalog: seq<Test>, contact: Contact, tests: Assignment)
    ensures var r := Available(catalog, contact, tests);
      SeqOps.SortedBy(r, Ranks) &&
      (forall t :: t in r <==> t in catalog && t.region == contact.associatedLocation &&
                               !HasTestId(AssignedTo(tests, contact.id), t)) &&
      (forall t :: multiset(r)[t] ==
         if t.region == contact.associatedLocation && !HasTestId(AssignedTo(tests, contact.id), t)
         then multiset(catalog)[t] else 0)
  {
    var given := AssignedTo(tests, contact.id);
    var region := InRegion(catalog, contact.associatedLocation);
    var keep := (t: Test) => !HasTestId(given, t);
    var kept := SeqOps.Filter(region, keep);
    RanksIsTotalPreorder();
    SeqOps.SortSorted(kept, Ranks);
    forall t
      ensures t in Available(catalog, contact, tests) <==>
        t in catalog && t.region == contact.associatedLocation && !HasTestId(given, t)
    {
      SeqOps.SortMember(kept, Ranks, t);
      SeqOps.FilterMember(region, keep, t);
      SeqOps.FilterMember(catalog, (t: Test) => t.region == contact.associatedLocation, t);
    }
    forall t
      ensures multiset(Available(catalog, contact, tests))[t] ==
        if t.region == contact.associatedLocation && !HasTestId(given, t) then multiset(catalog)[t] else 0
    {
      SeqOps.FilterCount(region, keep, t);
      SeqOps.FilterCount(catalog, (t: Test) => t.region == contact.associatedLocation, t);
    }
  }

  /** The effect on the available list: recomputed when a contact is selected, kept otherwise. */
  function AvailableAfter(previous: seq<Test>, catalog: seq<Test>, selected: Option<Contact>, tests: Assignment): seq<Test>
  {
    if selected.Some? then Available(catalog, selected.value, tests) else previous
  }

  // ----- automatic assignment -----

  /** The test a contact gets automatically: the best of its region's tests, none when there are none. */
  function Choice(catalog: seq<Test>, c: Contact): (r: Option<Test>)
    ensures r.None? <==> InRegion(catalog, c.associatedLocation) == []
    ensures r.Some? ==> r.value == SelectBest(InRegion(catalog, c.associatedLocation))
  {
    var available := InRegion(catalog, c.associatedLocation);
    if |available| > 0 then Some(SelectBest(available)) else None
  }

  /** A map built from key/value entries in order, later entries overwriting earlier ones; None adds nothing. */
  function LastWins<K, V>(entries: seq<(K, Option<V>)>): map<K, V>
  {
    if entries == [] then map[]
    else
      var prev := LastWins(entries[..|entries| - 1]);
      var last := entries[|entries| - 1];
      if last.1.Some? then prev[last.0 := last.1.value] else prev
  }

  /** No later entry with the same key has a value. */
  ghost predicate IsLastFor<K, V>(entries: seq<(K, Option<V>)>, i: int)
    requires 0 <= i < |entries|
  {
    forall j :: i < j < |entries| && entries[j].0 == entries[i].0 ==> entries[j].1.None?
  }

  /**
   * A key is in the map exactly when some entry with that key has a
   * value, and then it maps to the value of the last such entry.
   */
  lemma {:induction false} LastWinsFacts<K, V>(entries: seq<(K, Option<V>)>)
    ensures forall k :: k in LastWins(entries) <==>
      exists i :: 0 <= i < |entries| && entries[i].0 == k && entries[i].1.Some?
    ensures forall i :: 0 <= i < |entries| && entries[i].1.Some? && IsLastFor(entries, i) ==>
      LastWins(entries)[entries[i].0] == entries[i].1.value
  {
    if entries != [] {
      var n := |entries| - 1;
      var init := entries[..n];
      LastWinsFacts(init);
      var r := LastWins(entries);
      forall k
        ensures k in r <==> exists i :: 0 <= i < |entries| && entries[i].0 == k && entries[i].1.Some?
      {
        if k in LastWins(init) {
          var i :| 0 <= i < |init| && init[i].0 == k && init[i].1.Some?;
          assert entries[i] == init[i];
        }
        if exists i :: 0 <= i < |entries| && entries[i].0 == k && entries[i].1.Some? {
          var i :| 0 <= i < |entries| && entries[i].0 == k && entries[i].1.Some?;
          if i < n {
            assert init[i] == entries[i];
          }
        }
      }
      forall i | 0 <= i < |entries| && entries[i].1.Some? && IsLastFor(entries, i)
        ensures r[entries[i].0] == entries[i].1.value
      {
        if i < n {
          assert init[i] == entries[i];
          assert IsLastFor(init, i) by {
            forall j | i < j < |init| && init[j].0 == init[i].0
              ensures init[j].1.None?
            {
              assert init[j] == entries[j];
            }
          }
        }
      }
    }
  }

  /** Each contact's id with its automatic choice, as a one-test list. */
  function ContactEntries(contacts: seq<Contact>, catalog: seq<Test>): (r: seq<(string, Option<seq<Test>>)>)
    ensures |r| == |contacts|
  {
    seq(|contacts|, i requires 0 <= i < |contacts| =>
      var choice := Choice(catalog, contacts[i]);
      (contacts[i].id, if choice.Some? then Some([choice.value]) else None))
  }

  /**
   * The automatic assignment has an entry for a contact id exactly when
   * some contact with that id has a test in its region, and the entry is
   * the single best test of the last of those contacts.
   */
  lemma AutoAssignedFacts(contacts: seq<Contact>, catalog: seq<Test>)
    ensures var r := LastWins(ContactEntries(contacts, catalog));
      (forall id :: id in r <==>
         exists i :: 0 <= i < |contacts| && contacts[i].id == id && InRegion(catalog, contacts[i].associatedLocation) != []) &&
      (forall i :: 0 <= i < |contacts| && InRegion(catalog, contacts[i].associatedLocation) != [] &&
                   (forall j :: i < j < |contacts| && contacts[j].id == contacts[i].id ==>
                      InRegion(catalog, contacts[j].associatedLocation) == []) ==>
         r[contacts[i].id] == [SelectBest(InRegion(catalog, contacts[i].associatedLocation))])
  {
    var entries := ContactEntries(contacts, catalog);
    var r := LastWins(entries);
    LastWinsFacts(entries);
    forall id
      ensures id in r <==>
        exists i :: 0 <= i < |contacts| && contacts[i].id == id && InRegion(catalog, contacts[i].associatedLocation) != []
    {
      if id in r {
        var i :| 0 <= i < |entries| && entries[i].0 == id && entries[i].1.Some?;
        ContactEntry(contacts, catalog, i);
      }
      if exists i :: 0 <= i < |contacts| && contacts[i].id == id && InRegion(catalog, contacts[i].associatedLocation) != [] {
        var i :| 0 <= i < |contacts| && contacts[i].id == id && InRegion(catalog, contacts[i].associatedLocation) != [];
        ContactEntry(contacts, catalog, i);
      }
    }
    forall i | 0 <= i < |contacts| && InRegion(catalog, contacts[i].associatedLocation) != [] &&
               (forall j :: i < j < |contacts| && contacts[j].id == contacts[i].id ==>
                  InRegion(catalog, contacts[j].associatedLocation) == [])
      ensures r[contacts[i].id] == [SelectBest(InRegion(catalog, contacts[i].associatedLocation))]
    {
      ContactEntry(contacts, catalog, i);
      forall j | i < j < |entries| && entries[j].0 == entries[i].0
        ensures entries[j].1.None?
      {
        ContactEntry(contacts, catalog, j);
      }
      assert IsLastFor(entries, i);
    }
  }

  /** Entry i carries contact i's id, and its best test exactly when its region has one. */
  lemma ContactEntry(contacts: seq<Contact>, catalog: seq<Test>, i: nat)
    requires i < |contacts|
    ensures var e := ContactEntries(contacts, catalog)[i];
      var region := InRegion(catalog, contacts[i].associatedLocation);
      e.0 == contacts[i].id && (e.1.Some? <==> region != []) && (e.1.Some? ==> e.1.value == [SelectBest(region)])
  {
  }

  /** autoAssignTests: a new assignment built contact by contact, a later contact's choice overwriting an earlier one. */
  method AutoAssignTests(contacts: seq<Contact>, catalog: seq<Test>) returns (newTests: Assignment)
    ensures newTests == LastWins(ContactEntries(contacts, catalog))
  {
    ghost var entries := ContactEntries(contacts, catalog);
    newTests := map[];
    for n := 0 to |contacts|
      invariant newTests == LastWins(entries[..n])
    {
      var available := InRegion(catalog, contacts[n].associatedLocation);
      assert entries[..n + 1][..n] == entries[..n];
      if |available| > 0 {
        newTests := newTests[contacts[n].id := [SelectBest(available)]];
      }
    }
    assert entries[..|contacts|] == entries;
  }

  // ----- adding and removing -----

  /**
   * confirmAddTest: with a contact and a test selected, the test is
   * appended to that contact's list; the popup closes either way.
   */
  function ConfirmAddTest(tests: Assignment, contact: Option<Contact>, test: Option<Test>): (r: (Assignment, bool))
    ensures !r.1
    ensures contact.None? || test.None? ==> r.0 == tests
    ensures contact.Some? && test.Some? ==>
      r.0.Keys == tests.Keys + {contact.value.id} &&
      r.0[contact.value.id] == AssignedTo(tests, contact.value.id) + [test.value] &&
      forall id :: id in tests && id != contact.value.id ==> r.0[id] == tests[id]
  {
    if contact.Some? && test.Some? then
      (tests[contact.value.id := AssignedTo(tests, contact.value.id) + [test.value]], false)
    else (tests, false)
  }

  /**
   * removeTest: the test at testIndex leaves that contact's list, and an
   * index outside the list removes nothing; a contact with no entry makes
   * `prev[contactLabel].filter` throw.
   */
  function RemoveTest(tests: Assignment, contactId: string, testIndex: int): (r: Outcome<Assignment>)
    ensures r.Err? <==> contactId !in tests
    ensures r.Ok? ==>
      (r.value.Keys == tests.Keys &&
       (forall id :: id in tests && id != contactId ==> r.value[id] == tests[id]) &&
       (0 <= testIndex < |tests[contactId]| ==>
          r.value[contactId] == tests[contactId][..testIndex] + tests[contactId][testIndex + 1..]) &&
       (!(0 <= testIndex < |tests[contactId]|) ==> r.value[contactId] == tests[contactId]))
  {
    if contactId !in tests then Err(TypeError)
    else
      var s := tests[contactId];
      Ok(tests[contactId := seq(|s| - (if 0 <= testIndex < |s| then 1 else 0),
                               k requires 0 <= k < |s| - (if 0 <= testIndex < |s| then 1 else 0) =>
                                 if 0 <= testIndex <= k then s[k + 1] else s[k])])
  }

  /**
   * Adding a test and removing it again at the end of the list gives the
   * contact back the tests it had, and touches no other contact.
   */
  lemma AddThenRemove(tests: Assignment, contact: Contact, test: Test)
    ensures var added := ConfirmAddTest(tests, Some(contact), Some(test)).0;
      var removed := RemoveTest(added, contact.id, |AssignedTo(tests, contact.id)|);
      removed.Ok? && removed.value[contact.id] == AssignedTo(tests, contact.id) &&
      forall id :: id in tests && id != contact.id ==> removed.value[id] == tests[id]
  {
    var before := AssignedTo(tests, contact.id);
    var added := ConfirmAddTest(tests, Some(contact), Some(test)).0;
    assert (before + [test])[..|before|] == before;
  }

  // ----- expanded details -----

  /** `${contactId}-${testId}`. */
  function DetailKey(contactId: string, testId: int): string
  {
    contactId + "-" + IntToString(testId)
  }

  /** r is prev with key's membership toggled, each key once. */
  ghost predicate IsToggled(prev: seq<string>, key: string, r: seq<string>)
  {
    NoDuplicates(r) && forall x :: x in r <==> (x in prev && x != key) || (x == key && key !in prev)
  }

  /** Toggling the same key twice gives back the keys there were. */
  lemma ToggledTwice(prev: seq<string>, key: string, mid: seq<string>, last: seq<string>)
    requires IsToggled(prev, key, mid) && IsToggled(mid, key, last)
    ensures forall x :: x in last <==> x in prev
  {
  }

  /**
   * toggleTestDetails: a Set is built from the list, the key is deleted
   * when present and added otherwise, and the Set is turned back into a
   * list, first occurrences in order.
   */
  method ToggleTestDetails(prev: seq<string>, key: string) returns (r: seq<string>)
    ensures IsToggled(prev, key, r)
  {
    var items: seq<string> := [];
    for i := 0 to |prev|
      invariant NoDuplicates(items)
      invariant forall x :: x in items <==> x in prev[..i]
    {
      assert prev[..i + 1] == prev[..i] + [prev[i]];
      if prev[i] !in items {
        items := items + [prev[i]];
      }
    }
    assert prev[..|prev|] == prev;
    if key in items {
      var k :| 0 <= k < |items| && items[k] == key;
      r := items[..k] + items[k + 1..];
      assert items == items[..k] + [key] + items[k + 1..];
    } else {
      r := items + [key];
    }
  }

  // ----- loading saved tests -----

  /** A test as saved: any field may be missing. */
  datatype SavedTest = SavedTest(id: int, name: Option<string>, region: Option<string>, description: Option<string>,
                                 population: Option<real>, disruptionRate: Option<real>, tag: Option<seq<string>>)

  /** Every field is present and truthy; a tag list, being an array, is truthy even when empty. */
  predicate Complete(t: SavedTest)
  {
    t.name.Some? && t.name.value != "" && t.region.Some? && t.region.value != "" &&
    t.description.Some? && t.description.value != "" && t.population.Some? && t.population.value != 0.0 &&
    t.disruptionRate.Some? && t.disruptionRate.value != 0.0 && t.tag.Some?
  }

  function AsTest(t: SavedTest): Test
    requires Complete(t)
  {
    Test(t.id, t.name.value, t.region.value, t.description.value, t.population.value, t.disruptionRate.value, t.tag.value)
  }

  /** `catalog.find(candidate => candidate.id === id)`: undefined when there is none. */
  function FindById(catalog: seq<Test>, id: int): (r: Option<Test>)
    ensures r.None? <==> forall i :: 0 <= i < |catalog| ==> catalog[i].id != id
    ensures r.Some? ==>
      (exists i :: 0 <= i < |catalog| && catalog[i] == r.value && r.value.id == id &&
                   forall j :: 0 <= j < i ==> catalog[j].id != id)
  {
    if catalog == [] then None
    else if catalog[0].id == id then Some(catalog[0])
    else
      var r := FindById(catalog[1..], id);
      if r.Some? then
        var i :| 0 <= i < |catalog[1..]| && catalog[1..][i] == r.value && r.value.id == id &&
          forall j :: 0 <= j < i ==> catalog[1..][j].id != id;
        assert catalog[i + 1] == r.value;
        r
      else r
  }

  /** A saved test as loaded: itself when complete, else the catalogue test with its id, if any. */
  function LoadTest(t: SavedTest, catalog: seq<Test>): Option<Test>
  {
    if Complete(t) then Some(AsTest(t)) else FindById(catalog, t.id)
  }

  /** The initial assignment from the loaded data: every contact's list, test by test. */
  function LoadTests(saved: map<string, seq<SavedTest>>, catalog: seq<Test>): (r: map<string, seq<Option<Test>>>)
    ensures r.Keys == saved.Keys
    ensures forall id :: id in saved ==> |r[id]| == |saved[id]|
  {
    map id | id in saved :: seq(|saved[id]|, i requires 0 <= i < |saved[id]| => LoadTest(saved[id][i], catalog))
  }

  /**
   * A complete saved test is kept as it is; an incomplete one is replaced
   * by the first catalogue test with the same id, and is undefined when
   * the catalogue has none.
   */
  lemma LoadTestsFacts(saved: map<string, seq<SavedTest>>, catalog: seq<Test>, id: string, i: nat)
    requires id in saved && i < |saved[id]|
    ensures var t := saved[id][i];
      var l := LoadTests(saved, catalog)[id][i];
      (Complete(t) ==> l == Some(AsTest(t))) &&
      (!Complete(t) && l.Some? ==> l.value in catalog && l.value.id == t.id) &&
      (!Complete(t) ==> (l.None? <==> forall k :: 0 <= k < |catalog| ==> catalog[k].id != t.id))
  {
  }
}
