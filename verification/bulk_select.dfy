/** Bulk selection over a list of records (client/src/hooks/useBulkSelect.ts):
    a set of selected ids, independent of which records the list currently
    holds. `idOf` reads a record's `id`. */
module BulkSelect {
  import opened Common

  /** The ids of the records in `items`. */
  function ItemIds<T>(items: seq<T>, idOf: T -> string): (r: set<string>)
    ensures forall i :: 0 <= i < |items| ==> idOf(items[i]) in r
    ensures forall x :: x in r ==> exists i :: 0 <= i < |items| && idOf(items[i]) == x
  {
    set i | 0 <= i < |items| :: idOf(items[i])
  }

  /** No two records share an id. */
  predicate DistinctIds<T>(items: seq<T>, idOf: T -> string) {
    forall i, j :: 0 <= i < j < |items| ==> idOf(items[i]) != idOf(items[j])
  }

  /** `toggleSelect(id)`: `id` changes membership, every other id keeps it. */
  function ToggleSelect(sel: set<string>, id: string): (r: set<string>)
    ensures id in r <==> id !in sel
    ensures forall x :: x != id ==> (x in r <==> x in sel)
  {
    if id in sel then sel - {id} else sel + {id}
  }

  /** Toggling the same id twice gives back the selection it started from. */
  lemma ToggleTwice(sel: set<string>, id: string)
    ensures ToggleSelect(ToggleSelect(sel, id), id) == sel
  {
  }

  /** `toggleSelectAll()`: a selection as large as the list is cleared,
      anything else becomes the ids of every record. The test compares sizes
      only, not contents. */
  function ToggleSelectAll<T>(sel: set<string>, items: seq<T>, idOf: T -> string): (r: set<string>)
    ensures |sel| == |items| ==> r == {}
    ensures |sel| != |items| ==> forall i :: 0 <= i < |items| ==> idOf(items[i]) in r
    ensures |sel| != |items| ==> forall x :: x in r ==> exists i :: 0 <= i < |items| && idOf(items[i]) == x
  {
    if |sel| == |items| then {} else ItemIds(items, idOf)
  }

  /** `getSelected()`: the records whose id is selected, in list order. */
  function GetSelected<T>(sel: set<string>, items: seq<T>, idOf: T -> string): (r: seq<T>)
    ensures IsSubseq(r, items)
    ensures forall i :: 0 <= i < |r| ==> idOf(r[i]) in sel
    ensures forall i :: 0 <= i < |items| && idOf(items[i]) in sel ==> items[i] in r
    ensures multiset(r) <= multiset(items)
    ensures forall i :: 0 <= i < |items| && idOf(items[i]) in sel ==> multiset(r)[items[i]] == multiset(items)[items[i]]
  {
    FilterCounts(items, (x: T) => idOf(x) in sel);
    Filter(items, (x: T) => idOf(x) in sel)
  }

  /** `clearSelection()`. */
  function ClearSelection(): (r: set<string>)
    ensures |r| == 0
  {
    {}
  }

  /** `isSelected(id)`. */
  predicate IsSelected(sel: set<string>, id: string) {
    id in sel
  }

  /** `selectCount`. */
  function SelectCount(sel: set<string>): nat {
    |sel|
  }

  /** A record is returned by `getSelected` exactly when its id is selected. */
  lemma SelectedIffReturned<T>(sel: set<string>, items: seq<T>, idOf: T -> string)
    ensures forall i :: 0 <= i < |items| ==> (IsSelected(sel, idOf(items[i])) <==> items[i] in GetSelected(sel, items, idOf))
  {
    var r := GetSelected(sel, items, idOf);
    forall i | 0 <= i < |items| && items[i] in r ensures IsSelected(sel, idOf(items[i])) {
      var j :| 0 <= j < |r| && r[j] == items[i];
    }
  }

  /** For records with distinct ids and a selection drawn from their ids,
      `selectCount` is the number of records `getSelected` returns. */
  lemma {:induction false} SelectCountIsSelectedRecords<T>(sel: set<string>, items: seq<T>, idOf: T -> string)
    requires DistinctIds(items, idOf) && sel <= ItemIds(items, idOf)
    ensures SelectCount(sel) == |GetSelected(sel, items, idOf)|
    decreases |items|
  {
    if |items| == 0 {
      assert sel == {};
    } else {
      var x := items[0];
      var sel' := sel - {idOf(x)};
      SelectionTail(sel, items, idOf);
      SelectCountIsSelectedRecords(sel', items[1..], idOf);
      SelectedStep(sel, items, idOf);
      RemoveOneSize(sel, idOf(x));
    }
  }

  lemma RemoveOneSize(sel: set<string>, x: string)
    ensures |sel| == (if x in sel then 1 else 0) + |sel - {x}|
  {
    if x in sel {
      assert sel == (sel - {x}) + {x};
    } else {
      assert sel == sel - {x};
    }
  }

  /** A selection drawn from the ids, less the first record's id, is drawn
      from the ids of the rest. */
  lemma SelectionTail<T>(sel: set<string>, items: seq<T>, idOf: T -> string)
    requires DistinctIds(items, idOf) && |items| > 0 && sel <= ItemIds(items, idOf)
    ensures DistinctIds(items[1..], idOf)
    ensures sel - {idOf(items[0])} <= ItemIds(items[1..], idOf)
  {
    var tail := items[1..];
    DistinctTail(items, idOf);
    forall y | y in sel - {idOf(items[0])} ensures y in ItemIds(tail, idOf) {
      var i :| 0 <= i < |items| && idOf(items[i]) == y;
      assert i > 0 && idOf(tail[i - 1]) == y;
    }
  }

  /** The first record is returned exactly when its id is selected, and the
      rest is what the rest of the selection returns from the rest. */
  lemma SelectedStep<T>(sel: set<string>, items: seq<T>, idOf: T -> string)
    requires DistinctIds(items, idOf) && |items| > 0
    ensures |GetSelected(sel, items, idOf)|
            == (if idOf(items[0]) in sel then 1 else 0) + |GetSelected(sel - {idOf(items[0])}, items[1..], idOf)|
  {
    var x, tail := items[0], items[1..];
    var sel' := sel - {idOf(x)};
    DistinctTail(items, idOf);
    FilterCongruent(tail, (y: T) => idOf(y) in sel, (y: T) => idOf(y) in sel');
    assert items == [x] + tail;
    FilterCons(x, tail, (y: T) => idOf(y) in sel);
  }

  /** Without its first record the list still has distinct ids, none of
      them the first record's. */
  lemma DistinctTail<T>(items: seq<T>, idOf: T -> string)
    requires DistinctIds(items, idOf) && |items| > 0
    ensures DistinctIds(items[1..], idOf)
    ensures forall i :: 0 <= i < |items| - 1 ==> idOf(items[1..][i]) != idOf(items[0])
  {
    var tail := items[1..];
    forall i, j | 0 <= i < j < |tail| ensures idOf(tail[i]) != idOf(tail[j]) {
      assert tail[i] == items[i + 1] && tail[j] == items[j + 1];
    }
    forall i | 0 <= i < |tail| ensures idOf(tail[i]) != idOf(items[0]) {
      assert tail[i] == items[i + 1];
    }
  }

  /** `isAllSelected`: as many ids selected as there are records, and at
      least one record. */
  predicate IsAllSelected<T>(sel: set<string>, items: seq<T>) {
    |sel| == |items| && |items| > 0
  }

  /** After clearing, nothing is selected, nothing counts and no record is
      returned. */
  lemma ClearSelectsNothing<T>(items: seq<T>, idOf: T -> string, id: string)
    ensures SelectCount(ClearSelection()) == 0
    ensures !IsSelected(ClearSelection(), id)
    ensures GetSelected(ClearSelection(), items, idOf) == []
  {
    FilterKeepsNone(items, (x: T) => idOf(x) in ClearSelection());
  }

  /** Selecting every id returns the whole list. */
  lemma SelectAllGetsAll<T>(sel: set<string>, items: seq<T>, idOf: T -> string)
    requires ItemIds(items, idOf) <= sel
    ensures GetSelected(sel, items, idOf) == items
  {
    FilterKeepsAll(items, (x: T) => idOf(x) in sel);
  }

  /** With distinct ids there are exactly as many ids as records. */
  lemma {:induction false} DistinctIdsCount<T>(items: seq<T>, idOf: T -> string)
    requires DistinctIds(items, idOf)
    ensures |ItemIds(items, idOf)| == |items|
    decreases |items|
  {
    if |items| > 0 {
      DistinctTail(items, idOf);
      DistinctIdsCount(items[1..], idOf);
      ItemIdsCons(items, idOf);
    }
  }

  /** The ids of a list are its first record's id and the ids of the rest;
      with distinct ids the first one is new. */
  lemma ItemIdsCons<T>(items: seq<T>, idOf: T -> string)
    requires DistinctIds(items, idOf) && |items| > 0
    ensures ItemIds(items, idOf) == {idOf(items[0])} + ItemIds(items[1..], idOf)
    ensures idOf(items[0]) !in ItemIds(items[1..], idOf)
  {
    var tail := items[1..];
    forall x | x in ItemIds(items, idOf) ensures x in {idOf(items[0])} + ItemIds(tail, idOf) {
      var i :| 0 <= i < |items| && idOf(items[i]) == x;
      if i > 0 { assert idOf(tail[i - 1]) == x; }
    }
    forall x | x in ItemIds(tail, idOf) ensures x != idOf(items[0]) {
      var i :| 0 <= i < |tail| && idOf(tail[i]) == x;
      assert tail[i] == items[i + 1];
    }
  }

  /** A subset as large as the finite set containing it is that set. */
  lemma {:induction false} SubsetSameSize(a: set<string>, b: set<string>)
    requires a <= b && |a| == |b|
    ensures a == b
  {
    if a != b {
      var x :| x in b && x !in a;
      assert a <= b - {x};
      assert |b - {x}| == |b| - 1;
      assert false by {
        SubsetSize(a, b - {x});
      }
    }
  }

  lemma {:induction false} SubsetSize(a: set<string>, b: set<string>)
    requires a <= b
    ensures |a| <= |b|
    decreases |b|
  {
    if a != {} {
      var x :| x in a;
      SubsetSize(a - {x}, b - {x});
    }
  }

  /** When the records have distinct ids and the selection holds only ids of
      current records, `isAllSelected` means exactly that every record is
      selected. */
  lemma AllSelectedMeansEverySelected<T>(sel: set<string>, items: seq<T>, idOf: T -> string)
    requires DistinctIds(items, idOf) && sel <= ItemIds(items, idOf)
    ensures IsAllSelected(sel, items)
            <==> (|items| > 0 && forall i :: 0 <= i < |items| ==> IsSelected(sel, idOf(items[i])))
  {
    DistinctIdsCount(items, idOf);
    if |sel| == |items| {
      SubsetSameSize(sel, ItemIds(items, idOf));
    }
    if forall i :: 0 <= i < |items| ==> IsSelected(sel, idOf(items[i])) {
      assert ItemIds(items, idOf) <= sel;
      assert sel == ItemIds(items, idOf);
    }
  }

  /** With distinct ids, toggling all on a partial selection selects every
      record, and toggling all again clears it. */
  lemma ToggleAllThenAgain<T>(sel: set<string>, items: seq<T>, idOf: T -> string)
    requires DistinctIds(items, idOf) && |sel| != |items|
    ensures IsAllSelected(ToggleSelectAll(sel, items, idOf), items) <==> |items| > 0
    ensures ToggleSelectAll(ToggleSelectAll(sel, items, idOf), items, idOf) == {}
  {
    DistinctIdsCount(items, idOf);
  }

  /** The size test alone can be fooled: ids left over from records that
      are gone count towards "all selected" while no current record is
      selected. */
  lemma StaleSelectionLooksComplete()
    ensures IsAllSelected({"gone"}, ["here"])
    ensures !IsSelected({"gone"}, "here")
    ensures GetSelected({"gone"}, ["here"], (x: string) => x) == []
  {
    FilterKeepsNone(["here"], (x: string) => ((y: string) => y)(x) in {"gone"});
  }
}
