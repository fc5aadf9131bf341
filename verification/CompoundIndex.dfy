/** A compound index (compound-index.ts): documents grouped by one key, each group in order of another. */
module CompoundIndexes {
  import opened Bytes
  import opened Sorted

  type Pk = string

  type Group = string

  /** Where a document stands: its group, and its place in the group's order. */
  datatype Place = Place(group: Group, order: Scalar)

  type Groups = map<Group, seq<Entry>>

  /** Every group is in order, and holds exactly the documents placed in it. A group may be empty. */
  ghost predicate GroupsOk(groups: Groups, byPk: map<Pk, Place>) {
    && (forall g :: g in groups ==> IsSorted(groups[g]))
    && (forall p :: p in byPk ==> byPk[p].group in groups)
    && forall g, e :: EntryOk(groups, byPk, g, e)
  }

  ghost predicate EntryOk(groups: Groups, byPk: map<Pk, Place>, g: Group, e: Entry) {
    g in groups ==> multiset(groups[g])[e] == if e.val in byPk && byPk[e.val] == Place(g, e.key) then 1 else 0
  }

  predicate NoneEmpty(groups: Groups) { forall g :: g in groups ==> groups[g] != [] }

  /** What a range query sees of a group. */
  function ListOf(groups: Groups, g: Group): seq<Entry> { if g in groups then groups[g] else [] }

  /** A document stands in a group exactly at its place. */
  lemma GroupsShowPlaces(groups: Groups, byPk: map<Pk, Place>, g: Group, pk: Pk, order: Scalar)
    requires GroupsOk(groups, byPk)
    ensures Entry(order, pk) in ListOf(groups, g) <==> pk in byPk && byPk[pk] == Place(g, order)
    ensures IsSorted(ListOf(groups, g)) && multiset(ListOf(groups, g))[Entry(order, pk)] <= 1
  {
    hide Less;
    var e := Entry(order, pk);
    assert EntryOk(groups, byPk, g, e);
    assert e in ListOf(groups, g) <==> multiset(ListOf(groups, g))[e] > 0;
  }

  /** Two indexes of the same documents answer every query alike ... */
  lemma SameLists(a: Groups, b: Groups, byPk: map<Pk, Place>, g: Group)
    requires GroupsOk(a, byPk) && GroupsOk(b, byPk)
    ensures ListOf(a, g) == ListOf(b, g)
  {
    hide IsSorted;
    if g in a && g in b {
      forall e ensures multiset(a[g])[e] == multiset(b[g])[e] {
        assert EntryOk(a, byPk, g, e) && EntryOk(b, byPk, g, e);
      }
      SortedIsUnique(a[g], b[g]);
    } else {
      if g in a { Unplaced(a, byPk, g, b); }
      if g in b { Unplaced(b, byPk, g, a); }
    }
  }

  lemma Unplaced(a: Groups, byPk: map<Pk, Place>, g: Group, b: Groups)
    requires GroupsOk(a, byPk) && GroupsOk(b, byPk) && g in a && g !in b
    ensures a[g] == []
  {
    hide IsSorted;
    forall e ensures multiset(a[g])[e] == 0 { assert EntryOk(a, byPk, g, e); }
    NobodyIn(a[g]);
  }

  lemma NobodyIn(es: seq<Entry>)
    ensures es == [] <==> forall e :: multiset(es)[e] == 0
  {
    if es != [] { assert es[0] in multiset(es); }
  }

  /** ... and are equal exactly when they keep the same empty groups. */
  lemma EqualUnlessEmptied(a: Groups, b: Groups, byPk: map<Pk, Place>)
    requires GroupsOk(a, byPk) && GroupsOk(b, byPk) && NoneEmpty(b)
    ensures a == b <==> NoneEmpty(a)
  {
    forall g ensures ListOf(a, g) == ListOf(b, g) { SameLists(a, b, byPk, g); }
    if NoneEmpty(a) {
      forall g ensures g in a <==> g in b {
        assert ListOf(a, g) == ListOf(b, g);
      }
      forall g | g in a && g in b ensures a[g] == b[g] { assert ListOf(a, g) == ListOf(b, g); }
    }
  }

  // ---- One document -----------------------------------------------------------------------------

  function Inserting(groups: Groups, pk: Pk, at: Place): Groups {
    groups[at.group := Inserted(ListOf(groups, at.group), Entry(at.order, pk))]
  }

  function Removing(groups: Groups, pk: Pk, at: Place): Groups {
    if at.group in groups then groups[at.group := Removed(groups[at.group], Entry(at.order, pk))] else groups
  }

  function DropIfEmpty(groups: Groups, g: Group): Groups {
    if g in groups && groups[g] == [] then groups - {g} else groups
  }

  lemma InsertingOk(groups: Groups, byPk: map<Pk, Place>, pk: Pk, at: Place)
    requires GroupsOk(groups, byPk) && pk !in byPk
    ensures GroupsOk(Inserting(groups, pk, at), byPk[pk := at])
  {
    hide Inserted, Less, Count;
    var groups', byPk' := Inserting(groups, pk, at), byPk[pk := at];
    InsertedIsSorted(ListOf(groups, at.group), Entry(at.order, pk));
    forall g, e ensures EntryOk(groups', byPk', g, e) {
      assert EntryOk(groups, byPk, g, e);
      if g == at.group && g !in groups { Absent(groups, byPk, g, e); }
    }
  }

  lemma Absent(groups: Groups, byPk: map<Pk, Place>, g: Group, e: Entry)
    requires GroupsOk(groups, byPk) && g !in groups
    ensures !(e.val in byPk && byPk[e.val] == Place(g, e.key))
  {
  }

  lemma RemovingOk(groups: Groups, byPk: map<Pk, Place>, pk: Pk)
    requires GroupsOk(groups, byPk) && pk in byPk
    ensures GroupsOk(Removing(groups, pk, byPk[pk]), byPk - {pk})
  {
    hide Removed, Less, Count;
    var at := byPk[pk];
    var groups', byPk' := Removing(groups, pk, at), byPk - {pk};
    RemovedIsSorted(groups[at.group], Entry(at.order, pk));
    assert EntryOk(groups, byPk, at.group, Entry(at.order, pk));
    forall g, e ensures EntryOk(groups', byPk', g, e) { assert EntryOk(groups, byPk, g, e); }
  }

  lemma DropIfEmptyOk(groups: Groups, byPk: map<Pk, Place>, g: Group)
    requires GroupsOk(groups, byPk)
    ensures GroupsOk(DropIfEmpty(groups, g), byPk)
  {
    hide IsSorted;
    forall p | p in byPk ensures byPk[p].group in DropIfEmpty(groups, g) {
      var h, e := byPk[p].group, Entry(byPk[p].order, p);
      assert EntryOk(groups, byPk, h, e);
      NobodyIn(groups[h]);
    }
    forall x, e ensures EntryOk(DropIfEmpty(groups, g), byPk, x, e) { assert EntryOk(groups, byPk, x, e); }
  }

  class CompoundIndex {
    var groups: Groups
    var byPk: map<Pk, Place>

    ghost predicate Valid()
      reads this
    {
      GroupsOk(groups, byPk)
    }

    constructor ()
      ensures Valid() && byPk == map[] && groups == map[]
    {
      groups, byPk := map[], map[];
    }

    /** Add or move a document; `at` is None when it has no valid place. A group it leaves empty goes. */
    method Add(pk: Pk, at: Option<Place>)
      requires Valid()
      modifies this
      ensures Valid() && byPk == (if at.None? then old(byPk) - {pk} else old(byPk)[pk := at.value])
      ensures old(NoneEmpty(groups)) ==> NoneEmpty(groups)
    {
      hide GroupsOk, Inserted, Removed, Count, IsSorted;
      if pk in byPk && at == Some(byPk[pk]) { return; }
      ghost var was := byPk;
      if pk in byPk {
        RemovingOk(groups, byPk, pk);
        groups := Removing(groups, pk, byPk[pk]);
        DropIfEmptyOk(groups, byPk - {pk}, byPk[pk].group);
        groups := DropIfEmpty(groups, byPk[pk].group);
        byPk := byPk - {pk};
      }
      if at.Some? {
        InsertingOk(groups, byPk, pk, at.value);
        InsertedNotEmpty(ListOf(groups, at.value.group), Entry(at.value.order, pk));
        groups := Inserting(groups, pk, at.value);
        byPk := byPk[pk := at.value];
      }
      assert byPk == if at.None? then was - {pk} else was[pk := at.value];
    }

    static lemma InsertedNotEmpty(es: seq<Entry>, e: Entry)
      ensures Inserted(es, e) != []
    {
    }

    /** Remove a document. The group stays even when that leaves it empty. */
    method Remove(pk: Pk)
      requires Valid()
      modifies this
      ensures Valid() && byPk == old(byPk) - {pk}
      ensures pk in old(byPk) ==> groups == Removing(old(groups), pk, old(byPk)[pk])
    {
      hide GroupsOk;
      if pk in byPk {
        RemovingOk(groups, byPk, pk);
        groups := Removing(groups, pk, byPk[pk]);
        byPk := byPk - {pk};
      }
    }

    /** Start over from the documents: no group is empty. */
    method Rebuild(entries: seq<(Pk, Option<Place>)>)
      modifies this
      ensures Valid() && NoneEmpty(groups) && byPk == PlacesOf(entries)
    {
      hide GroupsOk;
      groups, byPk := map[], map[];
      NothingPlaced();
      assert entries[..0] == [];
      for i := 0 to |entries|
        invariant Valid() && NoneEmpty(groups) && byPk == PlacesOf(entries[..i])
      {
        assert entries[..i + 1][..i] == entries[..i];
        Add(entries[i].0, entries[i].1);
      }
      assert entries[..|entries|] == entries;
    }

    static lemma NothingPlaced()
      ensures GroupsOk(map[], map[])
    {
    }

    method Range(g: Group, q: Query) returns (hits: seq<Entry>)
      ensures hits == RangeOf(ListOf(groups, g), q)
    {
      if g in groups {
        hits := RangeOf(groups[g], q);
      } else {
        hits := [];
        NothingInRange(q);
      }
    }

    static lemma NothingInRange(q: Query)
      ensures RangeOf([], q) == []
    {
    }
  }

  function PlacesOf(entries: seq<(Pk, Option<Place>)>): map<Pk, Place> {
    if entries == [] then map[]
    else
      var init, last := PlacesOf(entries[..|entries| - 1]), entries[|entries| - 1];
      if last.1.None? then init - {last.0} else init[last.0 := last.1.value]
  }

  /** Adding a document and removing it leaves an empty group, which no rebuild makes: the two states
      differ, though no query can tell. */
  method EmptyGroupStays(pk: Pk, at: Place) returns (kept: CompoundIndex, rebuilt: CompoundIndex)
    ensures kept.Valid() && rebuilt.Valid() && kept.byPk == rebuilt.byPk && kept.groups != rebuilt.groups
  {
    hide GroupsOk, Inserted, Removed;
    kept := new CompoundIndex();
    kept.Add(pk, Some(at));
    var before := kept.groups;
    kept.Remove(pk);
    rebuilt := new CompoundIndex();
    rebuilt.Rebuild([]);
    PlacedGroup(before, at, pk);
    NothingPlacedMeansEmpty(kept.groups, at.group);
  }

  lemma NothingPlacedMeansEmpty(groups: Groups, g: Group)
    requires GroupsOk(groups, map[]) && g in groups
    ensures groups[g] == []
  {
    Unplaced(groups, map[], g, map[]);
  }

  lemma PlacedGroup(groups: Groups, at: Place, pk: Pk)
    requires GroupsOk(groups, map[pk := at])
    ensures at.group in groups && at.group in Removing(groups, pk, at)
  {
    assert map[pk := at][pk] == at;
  }
}
