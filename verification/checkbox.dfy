/**
 * The ore-selection checkboxes of the game dashboard: `findDiff`
 * (packages/nextjs/components/FunctionalButtons.tsx), the `handleChange`
 * toggle (RegisterGame.tsx, RegisterBiomes.tsx) and the split into
 * selected and other items (ObjectIdSelected.tsx).
 */
module Checkbox {
  import opened Seqs

  /** One selectable object type: its id, whether it is selected, and its icon and label. */
  datatype CheckboxItem = CheckboxItem(id: int, checked: bool, img: string, alt: string)

  /** The ids of `items`, in order. */
  function Ids(items: seq<CheckboxItem>): (r: seq<int>)
    ensures |r| == |items|
    ensures forall i :: 0 <= i < |items| ==> r[i] == items[i].id
  {
    seq(|items|, i requires 0 <= i < |items| => items[i].id)
  }

  /** No id occurs twice. */
  predicate DistinctIds(items: seq<CheckboxItem>) {
    forall i, j :: 0 <= i < j < |items| ==> items[i].id != items[j].id
  }

  /**
   * `findDiff(a, b)`: the ids of `a`'s items whose `checked` differs from the
   * item at the same position of `b`, in `a`'s order. `b` must be at least as
   * long as `a`, since `b[index]` is read for every index of `a`.
   */
  function FindDiff(a: seq<CheckboxItem>, b: seq<CheckboxItem>): (r: seq<int>)
    requires |a| <= |b|
    ensures |r| <= |a|
    ensures forall x :: x in r <==> exists i :: 0 <= i < |a| && a[i].checked != b[i].checked && a[i].id == x
  {
    if |a| == 0 then []
    else
      var rest := FindDiff(a[1..], b[1..]);
      assert forall x :: x in rest <==> exists i :: 1 <= i < |a| && a[i].checked != b[i].checked && a[i].id == x by {
        forall x | x in rest ensures exists i :: 1 <= i < |a| && a[i].checked != b[i].checked && a[i].id == x {
          var j :| 0 <= j < |a[1..]| && a[1..][j].checked != b[1..][j].checked && a[1..][j].id == x;
          assert a[j + 1].checked != b[j + 1].checked && a[j + 1].id == x;
        }
        forall x, i | 1 <= i < |a| && a[i].checked != b[i].checked && a[i].id == x ensures x in rest {
          assert a[1..][i - 1].checked != b[1..][i - 1].checked && a[1..][i - 1].id == x;
        }
      }
      (if a[0].checked != b[0].checked then [a[0].id] else []) + rest
  }

  /** The diff of two lists split at the same point is the concatenation of the two diffs. */
  lemma {:induction false} FindDiffAppend(a1: seq<CheckboxItem>, a2: seq<CheckboxItem>,
                                          b1: seq<CheckboxItem>, b2: seq<CheckboxItem>)
    requires |a1| == |b1| && |a2| <= |b2|
    ensures FindDiff(a1 + a2, b1 + b2) == FindDiff(a1, b1) + FindDiff(a2, b2)
  {
    if |a1| == 0 {
      assert a1 + a2 == a2 && b1 + b2 == b2;
    } else {
      assert (a1 + a2)[1..] == a1[1..] + a2;
      assert (b1 + b2)[1..] == b1[1..] + b2;
      FindDiffAppend(a1[1..], a2, b1[1..], b2);
    }
  }

  /** Comparing one more position extends the diff by that position's id when it changed. */
  lemma FindDiffStep(a: seq<CheckboxItem>, b: seq<CheckboxItem>, n: nat)
    requires n < |a| <= |b|
    ensures FindDiff(a[..n + 1], b[..n + 1]) ==
            FindDiff(a[..n], b[..n]) + (if a[n].checked != b[n].checked then [a[n].id] else [])
  {
    FindDiffAppend(a[..n], [a[n]], b[..n], [b[n]]);
    assert a[..n + 1] == a[..n] + [a[n]];
    assert b[..n + 1] == b[..n] + [b[n]];
    assert FindDiff([a[n]], [b[n]]) ==
           (if a[n].checked != b[n].checked then [a[n].id] else []) + FindDiff([], []);
  }

  /** A list compared with itself has no differences. */
  lemma FindDiffSelf(a: seq<CheckboxItem>)
    ensures FindDiff(a, a) == []
  {
    if FindDiff(a, a) != [] {
      assert FindDiff(a, a)[0] in FindDiff(a, a);
    }
  }

  /** When the ids agree position by position, the diff does not depend on the argument order. */
  lemma {:induction false} FindDiffSymmetric(a: seq<CheckboxItem>, b: seq<CheckboxItem>)
    requires |a| == |b|
    requires Ids(a) == Ids(b)
    ensures FindDiff(a, b) == FindDiff(b, a)
  {
    if |a| > 0 {
      assert a[0].id == Ids(a)[0] == Ids(b)[0] == b[0].id;
      assert Ids(a[1..]) == Ids(a)[1..] && Ids(b[1..]) == Ids(b)[1..];
      FindDiffSymmetric(a[1..], b[1..]);
    }
  }

  /**
   * `handleChange(objectId)`: every item with that id has its `checked`
   * flipped; everything else, and the order, is unchanged.
   */
  function Toggle(items: seq<CheckboxItem>, objectId: int): (r: seq<CheckboxItem>)
    ensures |r| == |items|
    ensures Ids(r) == Ids(items)
    ensures forall i :: 0 <= i < |items| ==>
              && r[i].img == items[i].img && r[i].alt == items[i].alt
              && (r[i].checked <==> (items[i].checked != (items[i].id == objectId)))
  {
    seq(|items|, i requires 0 <= i < |items| =>
      if items[i].id == objectId then items[i].(checked := !items[i].checked) else items[i])
  }

  /** Toggling the same id twice restores the list. */
  lemma ToggleTwice(items: seq<CheckboxItem>, objectId: int)
    ensures Toggle(Toggle(items, objectId), objectId) == items
  {
    var twice := Toggle(Toggle(items, objectId), objectId);
    forall i | 0 <= i < |items| ensures twice[i] == items[i] {
      assert twice[i].id == Ids(twice)[i] == Ids(items)[i];
    }
  }

  /** Toggling an id no item carries changes nothing. */
  lemma ToggleAbsent(items: seq<CheckboxItem>, objectId: int)
    requires objectId !in Ids(items)
    ensures Toggle(items, objectId) == items
  {
    var r := Toggle(items, objectId);
    forall i | 0 <= i < |items| ensures r[i] == items[i] {
      assert Ids(items)[i] != objectId;
      assert r[i].id == Ids(r)[i];
    }
  }

  /** Toggling acts item by item: the tail of a toggled list is the toggled tail. */
  lemma ToggleTail(items: seq<CheckboxItem>, objectId: int)
    requires |items| > 0
    ensures Toggle(items, objectId)[1..] == Toggle(items[1..], objectId)
  {
    var r := Toggle(items, objectId)[1..];
    var t := Toggle(items[1..], objectId);
    forall i | 0 <= i < |t| ensures r[i] == t[i] {
      assert r[i].id == Ids(Toggle(items, objectId))[i + 1] == Ids(items)[i + 1];
      assert t[i].id == Ids(t)[i] == Ids(items[1..])[i];
    }
  }

  /**
   * With distinct ids, toggling an id that occurs in the list makes the diff
   * against the original list exactly that id.
   */
  lemma {:induction false} ToggleThenDiff(items: seq<CheckboxItem>, k: int)
    requires DistinctIds(items)
    requires k in Ids(items)
    ensures FindDiff(Toggle(items, k), items) == [k]
  {
    var t := Toggle(items, k);
    ToggleTail(items, k);
    assert t[0].id == Ids(t)[0] == items[0].id;
    assert Ids(items[1..]) == Ids(items)[1..];
    if items[0].id == k {
      assert k !in Ids(items[1..]);
      ToggleAbsent(items[1..], k);
      FindDiffSelf(items[1..]);
    } else {
      assert k in Ids(items[1..]);
      ToggleThenDiff(items[1..], k);
    }
  }

  /** The items shown under "IN SEARCH": the checked ones, in order. */
  function Searching(items: seq<CheckboxItem>): (r: seq<CheckboxItem>)
    ensures forall x :: x in r <==> x in items && x.checked
  {
    Filter(items, (x: CheckboxItem) => x.checked)
  }

  /** The items shown under "OPTIONS": the unchecked ones, in order. */
  function Options(items: seq<CheckboxItem>): (r: seq<CheckboxItem>)
    ensures forall x :: x in r <==> x in items && !x.checked
  {
    Filter(items, (x: CheckboxItem) => !x.checked)
  }

  /**
   * The two groups partition the items: no item is in both, their sizes add
   * up, together they hold every item as often as the input does, and each
   * keeps the input's relative order.
   */
  lemma PartitionItems(items: seq<CheckboxItem>)
    ensures forall x :: !(x in Searching(items) && x in Options(items))
    ensures |Searching(items)| + |Options(items)| == |items|
    ensures multiset(Searching(items)) + multiset(Options(items)) == multiset(items)
  {
    FilterSplits(items, (x: CheckboxItem) => x.checked, (x: CheckboxItem) => !x.checked);
  }

  /** Each group of a concatenation is the concatenation of the groups: order is kept. */
  lemma PartitionOrder(a: seq<CheckboxItem>, b: seq<CheckboxItem>)
    ensures Searching(a + b) == Searching(a) + Searching(b)
    ensures Options(a + b) == Options(a) + Options(b)
  {
    FilterAppend(a, b, (x: CheckboxItem) => x.checked);
    FilterAppend(a, b, (x: CheckboxItem) => !x.checked);
  }

  /** A rendered checkbox: its state, label and icon, and the id it reports to `onChange`. */
  datatype Tile = Tile(checked: bool, alt: string, img: string, reports: int)

  /** One group as rendered: each item's checkbox reports that item's own id. */
  function Render(group: seq<CheckboxItem>): (r: seq<Tile>)
    ensures |r| == |group|
    ensures forall j :: 0 <= j < |group| ==> r[j].reports == group[j].id && r[j].checked == group[j].checked
  {
    seq(|group|, j requires 0 <= j < |group| => Tile(group[j].checked, group[j].alt, group[j].img, group[j].id))
  }

  /**
   * With distinct ids, clicking a tile of the "IN SEARCH" group moves that
   * item to "OPTIONS": afterwards no searching item carries the reported id.
   */
  lemma ClickSearchingTile(items: seq<CheckboxItem>, j: nat)
    requires DistinctIds(items)
    requires j < |Searching(items)|
    ensures var k := Render(Searching(items))[j].reports;
            k in Ids(items) && forall x :: x in Searching(Toggle(items, k)) ==> x.id != k
  {
    var k := Render(Searching(items))[j].reports;
    var s := Searching(items)[j];
    assert s in Searching(items);
    var i :| 0 <= i < |items| && items[i] == s;
    assert Ids(items)[i] == k;
    var t := Toggle(items, k);
    forall x | x in Searching(t) ensures x.id != k {
      var m :| 0 <= m < |t| && t[m] == x;
      assert t[m].id == Ids(t)[m] == Ids(items)[m];
    }
  }
}
