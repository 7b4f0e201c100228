/** The GUI's RulesTableModel: edits of `off` and `policy`, and the copies of unedited
    rows it keeps to tell which rows are dirty. */
module RulesTable {
  import opened Seqs
  import opened TrxData
  import RuleSpec

  /** QList::indexOf under operator==, or the length. */
  function IndexOf(saved: seq<Rule>, b: Base): (i: nat)
    ensures i <= |saved| && (i < |saved| ==> SameBase(saved[i].base, b)) && forall j | 0 <= j < i ::
      !SameBase(saved[j].base, b)
  {
    if saved == [] || SameBase(saved[0].base, b) then 0 else 1 + IndexOf(saved[1..], b)
  }

  predicate Dirty(saved: seq<Rule>, b: Base) { IndexOf(saved, b) < |saved| }

  ghost predicate DistinctRules(rules: seq<Rule>) {
    forall i, j | 0 <= i < j < |rules| :: !SameBase(rules[i].base, rules[j].base)
  }

  /** A row is listed as dirty exactly when it differs from its baseline, the value it had
      at the last load or commit. */
  ghost predicate MarksRight(rows: seq<Rule>, saved: seq<Rule>, baseline: seq<Rule>) {
    && |baseline| == |rows|
    && forall i | 0 <= i < |rows| :: Dirty(saved, rows[i].base) <==> rows[i] != baseline[i]
  }

  /** The marks are right, and the copy of a dirty row is its baseline. Rows may be alike
      under operator==, which ignores the chain. */
  ghost predicate Tracks(rows: seq<Rule>, saved: seq<Rule>, baseline: seq<Rule>) {
    && MarksRight(rows, saved, baseline) && DistinctRules(saved)
    && (forall i | 0 <= i < |rows| :: baseline[i].base == rows[i].base && baseline[i].id == rows[i].id)
    && (forall i, k | 0 <= i < |rows| && 0 <= k < |saved| && SameBase(saved[k].base, rows[i].base) ::
      saved[k] == baseline[i])
  }

  /** What an edit that changes a row does to the copies; `v` is the edited value before
      it is cut to a byte, `asOff` which field is edited. */
  function Touch(saved: seq<Rule>, row: Rule, v: int, asOff: bool): seq<Rule> {
    var ind := IndexOf(saved, row.base);
    if ind == |saved| then saved + [row]
    else if asOff && saved[ind].off == v && saved[ind].policy == row.policy then RemoveAt(saved, ind)
    else if !asOff && saved[ind].policy == v && saved[ind].off == row.off then RemoveAt(saved, ind)
    else saved
  }

  function Low8(v: int): u8 { v % 0x100 }

  function Edited(row: Rule, v: int, asOff: bool): Rule {
    if asOff then row.(off := Low8(v)) else row.(policy := Low8(v))
  }

  function Field(row: Rule, asOff: bool): u8 { if asOff then row.off else row.policy }

  lemma Apart(rows: seq<Rule>, i: nat, j: nat)
    requires DistinctRules(rows) && i < |rows| && j < |rows| && i != j
    ensures !SameBase(rows[i].base, rows[j].base)
  {
    assert !SameBase(rows[if i < j then i else j].base, rows[if i < j then j else i].base);
  }

  lemma DirtyAt(saved: seq<Rule>, k: nat, b: Base)
    requires k < |saved| && SameBase(saved[k].base, b)
    ensures Dirty(saved, b)
  {
  }

  lemma DirtyAppend(saved: seq<Rule>, r: Rule, b: Base)
    ensures Dirty(saved + [r], b) <==> Dirty(saved, b) || SameBase(r.base, b)
  {
    if Dirty(saved, b) {
      DirtyAt(saved + [r], IndexOf(saved, b), b);
    } else if SameBase(r.base, b) {
      DirtyAt(saved + [r], |saved|, b);
    }
  }

  lemma DirtyRemove(saved: seq<Rule>, ind: nat, b: Base)
    requires DistinctRules(saved) && ind < |saved|
    ensures Dirty(RemoveAt(saved, ind), b) <==> Dirty(saved, b) && !SameBase(saved[ind].base, b)
  {
    var left := RemoveAt(saved, ind);
    if Dirty(saved, b) && !SameBase(saved[ind].base, b) {
      var k := IndexOf(saved, b);
      DirtyAt(left, if k < ind then k else k - 1, b);
    }
    if Dirty(left, b) {
      var k := IndexOf(left, b);
      DirtyAt(saved, if k < ind then k else k + 1, b);
    }
  }

  /** The copies of one row's edit, seen from every row. */
  lemma TouchDirty(rows: seq<Rule>, saved: seq<Rule>, baseline: seq<Rule>, row: nat, v: int, asOff: bool, i: nat)
    requires Tracks(rows, saved, baseline) && row < |rows| && i < |rows|
    ensures var saved' := Touch(saved, rows[row], v, asOff);
      Dirty(saved', rows[i].base) <==>
        if !SameBase(rows[row].base, rows[i].base) then Dirty(saved, rows[i].base)
        else !(Dirty(saved, rows[row].base) && Undone(rows, baseline, row, v, asOff))
  {
    var b := rows[row].base;
    var ind := IndexOf(saved, b);
    if ind == |saved| {
      DirtyAppend(saved, rows[row], rows[i].base);
    } else {
      DirtyRemove(saved, ind, rows[i].base);
      if SameBase(b, rows[i].base) { DirtyAt(saved, ind, rows[i].base); }
    }
  }

  /** The edit leads back to the baseline, compared before the value is cut to a byte. */
  predicate Undone(rows: seq<Rule>, baseline: seq<Rule>, row: nat, v: int, asOff: bool)
    requires row < |rows| == |baseline|
  {
    Field(baseline[row], asOff) == v && Field(baseline[row], !asOff) == Field(rows[row], !asOff)
  }

  /** Another row is the same rule to operator==. */
  predicate Alike(rows: seq<Rule>, i: nat, j: nat)
    requires i < |rows| && j < |rows|
  {
    i != j && SameBase(rows[i].base, rows[j].base)
  }

  lemma TouchCopies(rows: seq<Rule>, saved: seq<Rule>, baseline: seq<Rule>, row: nat, v: int, asOff: bool)
    requires Tracks(rows, saved, baseline) && row < |rows|
    requires Dirty(saved, rows[row].base) || forall j: nat | j < |rows| :: !Alike(rows, row, j)
    ensures var saved' := Touch(saved, rows[row], v, asOff);
      && DistinctRules(saved')
      && forall i, k | 0 <= i < |rows| && 0 <= k < |saved'| && SameBase(saved'[k].base, rows[i].base) ::
        saved'[k] == baseline[i]
  {
    var b := rows[row].base;
    var ind := IndexOf(saved, b);
    var saved' := Touch(saved, rows[row], v, asOff);
    if ind == |saved| {
      forall i: nat | i < |rows| && i != row ensures !SameBase(b, rows[i].base) { assert !Alike(rows, row, i); }
    } else if saved' != saved {
      assert forall k | 0 <= k < |saved'| :: saved'[k] == saved[if k < ind then k else k + 1];
    }
  }

  /** What keeps an edit right: the value fits its byte or, cut to one, differs from the
      baseline; and rows alike to the edited one are, and stay, dirty with it. */
  ghost predicate Keeps(rows: seq<Rule>, saved: seq<Rule>, baseline: seq<Rule>, row: nat, v: int, asOff: bool)
    requires row < |rows| == |baseline|
  {
    var r' := Edited(rows[row], v, asOff);
    && (0 <= v < 0x100 || r' != baseline[row])
    && forall j: nat | j < |rows| && Alike(rows, row, j) :: Dirty(saved, rows[row].base) && r' != baseline[row]
  }

  lemma EditKept(rows: seq<Rule>, saved: seq<Rule>, baseline: seq<Rule>, row: nat, v: int, asOff: bool)
    requires Tracks(rows, saved, baseline) && row < |rows| && Field(rows[row], asOff) != v
    requires Keeps(rows, saved, baseline, row, v, asOff)
    ensures Tracks(rows[row := Edited(rows[row], v, asOff)], Touch(saved, rows[row], v, asOff), baseline)
  {
    var rows', saved' := rows[row := Edited(rows[row], v, asOff)], Touch(saved, rows[row], v, asOff);
    TouchCopies(rows, saved, baseline, row, v, asOff);
    UndoneIs(rows, baseline, row, v, asOff);
    hide Touch, IndexOf, DistinctRules;
    forall i: nat | i < |rows|
      ensures rows'[i].base == rows[i].base && (Dirty(saved', rows[i].base) <==> rows'[i] != baseline[i])
    {
      TouchDirty(rows, saved, baseline, row, v, asOff, i);
      if SameBase(rows[row].base, rows[i].base) {
        assert i == row || Alike(rows, row, i);
        SameMarks(saved, rows[row].base, rows[i].base);
      }
    }
  }

  lemma SameMarks(saved: seq<Rule>, a: Base, b: Base)
    requires SameBase(a, b)
    ensures Dirty(saved, a) <==> Dirty(saved, b)
  {
    if Dirty(saved, a) { DirtyAt(saved, IndexOf(saved, a), b); }
    if Dirty(saved, b) { DirtyAt(saved, IndexOf(saved, b), a); }
  }

  lemma UndoneIs(rows: seq<Rule>, baseline: seq<Rule>, row: nat, v: int, asOff: bool)
    requires row < |rows| == |baseline| && baseline[row].base == rows[row].base && baseline[row].id == rows[row].id
    ensures Undone(rows, baseline, row, v, asOff) <==> 0 <= v < 0x100 && Edited(rows[row], v, asOff) == baseline[row]
  {
  }

  lemma EditSpoilt(rows: seq<Rule>, saved: seq<Rule>, baseline: seq<Rule>, row: nat, v: int, asOff: bool)
    requires Tracks(rows, saved, baseline) && row < |rows| && Field(rows[row], asOff) != v
    requires !Keeps(rows, saved, baseline, row, v, asOff)
    ensures !MarksRight(rows[row := Edited(rows[row], v, asOff)], Touch(saved, rows[row], v, asOff), baseline)
  {
    var rows', saved' := rows[row := Edited(rows[row], v, asOff)], Touch(saved, rows[row], v, asOff);
    UndoneIs(rows, baseline, row, v, asOff);
    hide Touch, IndexOf, DistinctRules;
    if !(0 <= v < 0x100 || rows'[row] != baseline[row]) {
      TouchDirty(rows, saved, baseline, row, v, asOff, row);
      assert Dirty(saved', rows'[row].base) && rows'[row] == baseline[row];
    } else {
      var j: nat :| j < |rows| && Alike(rows, row, j) && !(Dirty(saved, rows[row].base) && rows'[row] != baseline[row]);
      TouchDirty(rows, saved, baseline, row, v, asOff, j);
      SameMarks(saved, rows[row].base, rows[j].base);
      assert Dirty(saved', rows'[j].base) != (rows'[j] != baseline[j]);
    }
  }

  /** On any table whose marks are right, an edit keeps them right exactly under that
      condition. */
  lemma EditTracksIff(rows: seq<Rule>, saved: seq<Rule>, baseline: seq<Rule>, row: nat, v: int, asOff: bool)
    requires Tracks(rows, saved, baseline) && row < |rows| && Field(rows[row], asOff) != v
    ensures Tracks(rows[row := Edited(rows[row], v, asOff)], Touch(saved, rows[row], v, asOff), baseline)
       <==> Keeps(rows, saved, baseline, row, v, asOff)
    ensures Tracks(rows[row := Edited(rows[row], v, asOff)], Touch(saved, rows[row], v, asOff), baseline)
       <==> MarksRight(rows[row := Edited(rows[row], v, asOff)], Touch(saved, rows[row], v, asOff), baseline)
  {
    if Keeps(rows, saved, baseline, row, v, asOff) {
      EditKept(rows, saved, baseline, row, v, asOff);
    } else {
      EditSpoilt(rows, saved, baseline, row, v, asOff);
    }
  }

  /** A list on which no copy made before bears. */
  ghost predicate Loadable(rows: seq<Rule>, saved: seq<Rule>) {
    DistinctRules(saved) && forall r | r in rows :: !Dirty(saved, r.base)
  }

  lemma LoadTracksIff(rows: seq<Rule>, saved: seq<Rule>)
    ensures Tracks(rows, saved, rows) <==> Loadable(rows, saved)
  {
    forall i, k | 0 <= i < |rows| && 0 <= k < |saved| && SameBase(saved[k].base, rows[i].base)
      ensures Dirty(saved, rows[i].base)
    {
      DirtyAt(saved, k, rows[i].base);
    }
  }

  /** Every copy is of a row: so it is in a table whose rows were edited, added, committed
      or cancelled since its copies were last cleared. */
  ghost predicate Owned(rows: seq<Rule>, saved: seq<Rule>) {
    forall c | c in saved :: HasRow(rows, c.base)
  }

  predicate HasRow(rows: seq<Rule>, b: Base) { exists i :: 0 <= i < |rows| && SameBase(b, rows[i].base) }

  lemma EditKeepsOwned(rows: seq<Rule>, saved: seq<Rule>, row: nat, v: int, asOff: bool)
    requires row < |rows| && Owned(rows, saved)
    ensures Owned(rows[row := Edited(rows[row], v, asOff)], Touch(saved, rows[row], v, asOff))
  {
    var rows', saved' := rows[row := Edited(rows[row], v, asOff)], Touch(saved, rows[row], v, asOff);
    forall c | c in saved' ensures HasRow(rows', c.base) {
      assert c in saved || c == rows[row];
      var i :| 0 <= i < |rows| && SameBase(c.base, rows[i].base);
      assert rows'[i].base == rows[i].base;
    }
  }

  /** No old row that was changed is the same rule as a new row. */
  ghost predicate ChangesGone(rows: seq<Rule>, baseline: seq<Rule>, list: seq<Rule>)
    requires |baseline| == |rows|
  {
    forall i, j | 0 <= i < |rows| && 0 <= j < |list| && SameBase(rows[i].base, list[j].base) :: rows[i] == baseline[i]
  }

  /** Loading keeps the copies of the old rows. A new list starts clean exactly when no old
      row with uncommitted changes is in it again. */
  lemma ReloadTracksIff(rows: seq<Rule>, saved: seq<Rule>, baseline: seq<Rule>, list: seq<Rule>)
    requires Tracks(rows, saved, baseline) && Owned(rows, saved)
    ensures Tracks(list, saved, list) <==> ChangesGone(rows, baseline, list)
  {
    LoadTracksIff(list, saved);
    hide DistinctRules, IndexOf;
    if ChangesGone(rows, baseline, list) {
      forall r | r in list ensures !Dirty(saved, r.base) {
        var j :| 0 <= j < |list| && list[j] == r;
        if Dirty(saved, r.base) {
          var k := CopyOf(saved, r.base);
          assert false;
        }
      }
    } else {
      var i, j :| 0 <= i < |rows| && 0 <= j < |list| && SameBase(rows[i].base, list[j].base) && rows[i] != baseline[i];
      assert list[j] in list;
      var k := CopyOf(saved, rows[i].base);
      DirtyAt(saved, k, list[j].base);
    }
  }

  lemma ReloadTracks(rows: seq<Rule>, saved: seq<Rule>, baseline: seq<Rule>, list: seq<Rule>)
    ensures Tracks(rows, saved, baseline) ==> |baseline| == |rows|
    ensures Tracks(rows, saved, baseline) && Owned(rows, saved) ==>
      (Tracks(list, saved, list) <==> ChangesGone(rows, baseline, list))
  {
    if Tracks(rows, saved, baseline) && Owned(rows, saved) { ReloadTracksIff(rows, saved, baseline, list); }
  }

  lemma CopyOf(saved: seq<Rule>, b: Base) returns (k: nat)
    requires Dirty(saved, b)
    ensures k < |saved| && SameBase(saved[k].base, b)
  {
    k := IndexOf(saved, b);
  }

  lemma AddTracksIff(rows: seq<Rule>, saved: seq<Rule>, baseline: seq<Rule>, r: Rule)
    requires Tracks(rows, saved, baseline)
    ensures Tracks(rows + [r], saved, baseline + [r]) <==> !Dirty(saved, r.base)
  {
    var rows' := rows + [r];
    forall k | 0 <= k < |saved| && SameBase(saved[k].base, r.base)
      ensures Dirty(saved, r.base)
    {
      DirtyAt(saved, k, r.base);
    }
    assert rows'[|rows|] == r && (baseline + [r])[|rows|] == r;
  }

  /** A value too large for its byte can mark a row dirty that has not changed. */
  lemma WideEditMisleads()
    ensures var r := Rule(Base(CHAIN_INPUT, 6, 0, 80, 0, 0), 1, 0, 0);
      && Tracks([r], [], [r]) && Edited(r, 0x101, true) == r
      && !Tracks([Edited(r, 0x101, true)], Touch([], r, 0x101, true), [r])
  {
    var r := Rule(Base(CHAIN_INPUT, 6, 0, 80, 0, 0), 1, 0, 0);
    EditTracksIff([r], [], [r], 0, 0x101, true);
  }

  // ----- the model -----

  /** A shared rule object of the table. */
  class Item {
    const base: Base
    const id: u32
    var off: u8
    var policy: u8

    constructor (r: Rule)
      ensures Fr() == r
    {
      base, id, off, policy := r.base, r.id, r.off, r.policy;
    }

    function Fr(): Rule
      reads this
    {
      Rule(base, off, policy, id)
    }
  }

  function Rows(items: seq<Item>): (r: seq<Rule>)
    reads items
    ensures |r| == |items| && forall i | 0 <= i < |items| :: r[i] == items[i].Fr()
  {
    if items == [] then [] else [items[0].Fr()] + Rows(items[1..])
  }

  class Model {
    var items: seq<Item>
    var saved: seq<Rule>
    /** What each row held at the last load or commit. */
    ghost var baseline: seq<Rule>

    ghost predicate Valid()
      reads this, items
    {
      Tracks(Rows(items), saved, baseline)
    }

    constructor ()
      ensures items == [] && saved == [] && Valid()
    {
      items, saved, baseline := [], [], [];
    }

    /** setRules: the list shown is a new one; copies kept so far stay. */
    method SetRules(list: seq<Item>)
      modifies `items, `baseline
      ensures items == list && baseline == Rows(list)
      ensures Valid() <==> Loadable(Rows(list), saved)
      ensures old(Valid() && Owned(Rows(items), saved)) ==>
        (Valid() <==> ChangesGone(old(Rows(items)), old(baseline), Rows(list)))
    {
      hide Tracks, Loadable, ChangesGone, Owned;
      ReloadTracks(Rows(items), saved, baseline, Rows(list));
      items := list;
      baseline := Rows(list);
      LoadTracksIff(Rows(list), saved);
    }

    /** addRule: a row of its own, as its own baseline. */
    method AddRule(r: Rule)
      modifies `items, `baseline
      ensures Rows(items) == old(Rows(items)) + [r] && baseline == old(baseline) + [r] && saved == old(saved)
      ensures old(Valid()) ==> (Valid() <==> !Dirty(saved, r.base))
    {
      ghost var rows := Rows(items);
      if Valid() { AddTracksIff(rows, saved, baseline, r); }
      hide Tracks, IndexOf;
      var item := new Item(r);
      items := items + [item];
      baseline := baseline + [r];
      assert Rows(items) == rows + [r];
    }

    method FindSaved(b: Base) returns (ind: nat)
      ensures ind == IndexOf(saved, b)
    {
      ind := 0;
      assert saved[0..] == saved;
      while ind < |saved| && !SameBase(saved[ind].base, b)
        invariant ind <= |saved| && IndexOf(saved, b) == ind + IndexOf(saved[ind..], b)
      {
        assert saved[ind..][1..] == saved[ind+1..];
        ind := ind + 1;
      }
    }

    /** setData in the OFF or the POLICY column. */
    method SetData(row: nat, v: int, asOff: bool)
      requires row < |items| && forall i | 0 <= i < |items| && i != row :: items[i] != items[row]
      modifies `saved, items`off, items`policy
      ensures if old(Field(items[row].Fr(), asOff)) == v then saved == old(saved) && Rows(items) == old(Rows(items))
              else
                && saved == Touch(old(saved), old(items[row].Fr()), v, asOff)
                && Rows(items) == old(Rows(items))[row := Edited(old(items[row].Fr()), v, asOff)]
    {
      var item := items[row];
      var current := if asOff then item.off else item.policy;
      if current != v {
        var ind := FindSaved(item.base);
        if ind == |saved| {
          saved := saved + [item.Fr()];
        } else if asOff {
          if saved[ind].off == v && saved[ind].policy == item.policy { saved := RemoveAt(saved, ind); }
        } else {
          if saved[ind].policy == v && saved[ind].off == item.off { saved := RemoveAt(saved, ind); }
        }
        if asOff { item.off := Low8(v); } else { item.policy := Low8(v); }
      }
    }

    /** getDirty: in row order, the rows some copy is alike to; with right marks, those that
        differ from their baseline. */
    method GetDirty() returns (dirty: seq<Item>)
      ensures dirty == Filter(items, Marked(saved))
      ensures Valid() ==>
        forall e :: e in dirty <==> exists i | 0 <= i < |items| :: items[i] == e && e.Fr() != baseline[i]
    {
      dirty := [];
      var i := 0;
      while i < |items|
        invariant i <= |items| && dirty == Filter(items[..i], Marked(saved))
      {
        assert items[..i+1] == items[..i] + [items[i]];
        FilterSnoc(items[..i], items[i], Marked(saved));
        var ind := FindSaved(items[i].base);
        if ind < |saved| { dirty := dirty + [items[i]]; }
        i := i + 1;
      }
      assert items[..i] == items;
      if Valid() { DirtyRows(items, saved, baseline); }
    }

    /** clearDirty: the present values become the baseline, and the marks are right. */
    method ClearDirty()
      modifies `saved, `baseline
      ensures Valid() && saved == [] && baseline == Rows(items)
    {
      saved := [];
      baseline := Rows(items);
    }

    /** The loop body of cancelChanges. */
    method Undo(item: Item)
      modifies item`off, item`policy
      ensures item.Fr() == Restored(old(item.Fr()), saved)
    {
      var ind := FindSaved(item.base);
      if ind < |saved| {
        item.off := saved[ind].off;
        item.policy := saved[ind].policy;
      }
    }

    /** cancelChanges: each row takes the `off` and `policy` of the copy it is alike to; with
        right marks every row is back at its baseline. */
    method CancelChanges()
      modifies `saved, items`off, items`policy
      ensures saved == [] && Rows(items) == Cancelled(old(Rows(items)), old(saved))
      ensures old(Valid()) ==> Valid() && Rows(items) == baseline
    {
      ghost var rows := Rows(items);
      hide Tracks, Restored, Rows;
      BackIfTracked(rows, saved, baseline);
      var i := 0;
      while i < |items|
        invariant i <= |items|
        invariant forall k | 0 <= k < i :: items[k].Fr() == Restored(rows[k], saved)
        invariant forall k | i <= k < |items| :: items[k].Fr() == rows[k] || items[k].Fr() == Restored(rows[k], saved)
        modifies items`off, items`policy
      {
        forall k | 0 <= k < |items| ensures Restored(Restored(rows[k], saved), saved) == Restored(rows[k], saved) {
          RestoredTwice(rows[k], saved);
        }
        Undo(items[i]);
        i := i + 1;
      }
      MapIndex(rows, Restore(saved));
      saved := [];
    }
  }

  lemma BackIfTracked(rows: seq<Rule>, saved: seq<Rule>, baseline: seq<Rule>)
    ensures Tracks(rows, saved, baseline) ==> Cancelled(rows, saved) == baseline && Tracks(baseline, [], baseline)
  {
    if Tracks(rows, saved, baseline) { CancelledBack(rows, saved, baseline); }
  }

  /** A row after cancelChanges. */
  function Restored(r: Rule, saved: seq<Rule>): Rule {
    var ind := IndexOf(saved, r.base);
    if ind < |saved| then r.(off := saved[ind].off, policy := saved[ind].policy) else r
  }

  lemma RestoredTwice(r: Rule, saved: seq<Rule>)
    ensures Restored(r, saved).base == r.base && Restored(Restored(r, saved), saved) == Restored(r, saved)
  {
  }

  function Restore(saved: seq<Rule>): Rule -> Rule { (r: Rule) => Restored(r, saved) }

  function Cancelled(rows: seq<Rule>, saved: seq<Rule>): seq<Rule> { Map(rows, Restore(saved)) }

  lemma CancelledBack(rows: seq<Rule>, saved: seq<Rule>, baseline: seq<Rule>)
    requires Tracks(rows, saved, baseline)
    ensures Cancelled(rows, saved) == baseline && Tracks(baseline, [], baseline)
  {
    MapIndex(rows, Restore(saved));
    forall i | 0 <= i < |rows| ensures Restored(rows[i], saved) == baseline[i] {
      assert Dirty(saved, rows[i].base) <==> rows[i] != baseline[i];
    }
  }

  function Marked(saved: seq<Rule>): Item -> bool { (e: Item) => Dirty(saved, e.base) }

  lemma {:induction false} DirtyRows(items: seq<Item>, saved: seq<Rule>, baseline: seq<Rule>)
    requires Tracks(Rows(items), saved, baseline)
    ensures forall e ::
      e in Filter(items, Marked(saved)) <==> exists i | 0 <= i < |items| :: items[i] == e && e.Fr() != baseline[i]
  {
    forall e
      ensures e in Filter(items, Marked(saved)) <==>
        exists i | 0 <= i < |items| :: items[i] == e && e.Fr() != baseline[i]
    {
      FilterIn(items, Marked(saved), e);
      assert forall i | 0 <= i < |items| :: Rows(items)[i] == items[i].Fr();
      if e in Filter(items, Marked(saved)) {
        var i :| 0 <= i < |items| && items[i] == e;
        assert Rows(items)[i] != baseline[i];
      }
    }
  }

  // ----- series of edits -----

  /** One call of setData: the row, the column and the value. */
  datatype Edit = Edit(row: nat, v: int, asOff: bool)

  /** setData on values: a value the field already has changes nothing. */
  function Apply(rows: seq<Rule>, saved: seq<Rule>, e: Edit): (seq<Rule>, seq<Rule>) {
    if e.row >= |rows| || Field(rows[e.row], e.asOff) == e.v then (rows, saved)
    else (rows[e.row := Edited(rows[e.row], e.v, e.asOff)], Touch(saved, rows[e.row], e.v, e.asOff))
  }

  function ApplyAll(rows: seq<Rule>, saved: seq<Rule>, es: seq<Edit>): (seq<Rule>, seq<Rule>)
    decreases |es|
  {
    if es == [] then (rows, saved)
    else var (rows', saved') := Apply(rows, saved, es[0]); ApplyAll(rows', saved', es[1..])
  }

  ghost predicate Bytes(es: seq<Edit>) { forall e | e in es :: 0 <= e.v < 0x100 }

  /** With rows distinct under operator==, after any series of byte-range edits a row is
      dirty exactly when it differs from its value at the last load or commit. */
  lemma {:induction false} EditsTrack(rows: seq<Rule>, saved: seq<Rule>, baseline: seq<Rule>, es: seq<Edit>)
    requires Tracks(rows, saved, baseline) && DistinctRules(rows) && Bytes(es)
    ensures var (rows', saved') := ApplyAll(rows, saved, es); Tracks(rows', saved', baseline)
    decreases |es|
  {
    if es == [] {
    } else {
      var e := es[0];
      assert e in es && Bytes(es[1..]);
      if e.row < |rows| { NoneAlike(rows, e.row); }
      hide Tracks, Touch;
      if e.row < |rows| && Field(rows[e.row], e.asOff) != e.v {
        EditTracksIff(rows, saved, baseline, e.row, e.v, e.asOff) by { TracksLength(rows, saved, baseline); }
      }
      var (rows', saved') := Apply(rows, saved, e);
      EditsTrack(rows', saved', baseline, es[1..]);
    }
  }

  lemma TracksLength(rows: seq<Rule>, saved: seq<Rule>, baseline: seq<Rule>)
    requires Tracks(rows, saved, baseline)
    ensures |baseline| == |rows|
  {
  }

  lemma NoneAlike(rows: seq<Rule>, i: nat)
    requires DistinctRules(rows) && i < |rows|
    ensures forall j: nat | j < |rows| :: !Alike(rows, i, j)
  {
    forall j: nat | j < |rows| ensures !Alike(rows, i, j) { if i != j { Apart(rows, i, j); } }
  }

  lemma {:induction false} EditsKeepOwned(rows: seq<Rule>, saved: seq<Rule>, es: seq<Edit>)
    requires Owned(rows, saved)
    ensures Owned(ApplyAll(rows, saved, es).0, ApplyAll(rows, saved, es).1)
    decreases |es|
  {
    if es == [] {
    } else {
      var e := es[0];
      hide Owned, Touch;
      if e.row < |rows| && Field(rows[e.row], e.asOff) != e.v {
        EditKeepsOwned(rows, saved, e.row, e.v, e.asOff);
      }
      var (rows', saved') := Apply(rows, saved, e);
      EditsKeepOwned(rows', saved', es[1..]);
    }
  }

  /** No row getDirty lists is the same rule as a new row. */
  ghost predicate MarkedGone(rows: seq<Rule>, saved: seq<Rule>, list: seq<Rule>) {
    forall i, j | 0 <= i < |rows| && 0 <= j < |list| && SameBase(rows[i].base, list[j].base) ::
      !Dirty(saved, rows[i].base)
  }

  lemma ReloadMarksIff(rows: seq<Rule>, saved: seq<Rule>, list: seq<Rule>)
    requires Owned(rows, saved)
    ensures MarksRight(list, saved, list) <==> MarkedGone(rows, saved, list)
  {
    forall i, j | 0 <= i < |rows| && 0 <= j < |list| && SameBase(rows[i].base, list[j].base)
      ensures Dirty(saved, rows[i].base) <==> Dirty(saved, list[j].base)
    {
      SameMarks(saved, rows[i].base, list[j].base);
    }
    forall j | 0 <= j < |list| && Dirty(saved, list[j].base)
      ensures exists i :: 0 <= i < |rows| && SameBase(rows[i].base, list[j].base)
    {
      var k := CopyOf(saved, list[j].base);
      assert saved[k] in saved;
      var i :| 0 <= i < |rows| && SameBase(saved[k].base, rows[i].base);
      assert SameBase(rows[i].base, list[j].base);
    }
  }

  /** Load any list, edit it in any way, load another without a commit: the new one starts
      with right marks exactly when no row getDirty listed is in it again. If the old rows
      were distinct and the values bytes, those are the rows with uncommitted changes. */
  lemma EditsThenLoad(rows: seq<Rule>, es: seq<Edit>, list: seq<Rule>)
    ensures var (rows', saved') := ApplyAll(rows, [], es);
      && (MarksRight(list, saved', list) <==> MarkedGone(rows', saved', list))
      && (DistinctRules(rows) && Bytes(es) ==>
        |rows'| == |rows| && (MarksRight(list, saved', list) <==> ChangesGone(rows', rows, list)))
  {
    var (rows', saved') := ApplyAll(rows, [], es);
    assert Tracks(rows, [], rows) && Owned(rows, []);
    hide DistinctRules, ApplyAll, Owned, ChangesGone, MarkedGone, Bytes;
    EditsKeepOwned(rows, [], es);
    ReloadMarksIff(rows', saved', list);
    if DistinctRules(rows) && Bytes(es) {
      EditsTrack(rows, [], rows, es);
      TracksLength(rows', saved', rows);
      MarkedIsChanged(rows', saved', rows, list);
    }
  }

  lemma MarkedIsChanged(rows: seq<Rule>, saved: seq<Rule>, baseline: seq<Rule>, list: seq<Rule>)
    requires |baseline| == |rows| && Tracks(rows, saved, baseline)
    ensures MarkedGone(rows, saved, list) <==> ChangesGone(rows, baseline, list)
  {
    hide IndexOf, DistinctRules;
  }

  // ----- rows alike -----

  lemma One(rows: seq<Rule>, saved: seq<Rule>, e: Edit)
    ensures ApplyAll(rows, saved, [e]) == Apply(rows, saved, e)
  {
    hide Apply;
    assert [e][1..] == [];
  }

  /** Edits of one row only leave its loaded value as the one copy, or none once it is back. */
  lemma {:induction false} OneRow(rows: seq<Rule>, row: nat, r: Rule, es: seq<Edit>)
    requires row < |rows| && Bytes(es) && (forall e | e in es :: e.row == row)
    requires r.base == rows[row].base && r.id == rows[row].id
    ensures var (rows', saved') := ApplyAll(rows[row := r], CopyIf(rows[row], r), es);
      && |rows'| == |rows| && rows' == rows[row := rows'[row]] && saved' == CopyIf(rows[row], rows'[row])
      && rows'[row].base == rows[row].base && rows'[row].id == rows[row].id
    decreases |es|
  {
    if es == [] {
    } else {
      var e := es[0];
      assert e in es && Bytes(es[1..]);
      var (next, copies) := Apply(rows[row := r], CopyIf(rows[row], r), e);
      var r' := next[row];
      OneStep(rows, row, r, e);
      hide Apply;
      OneRow(rows, row, r', es[1..]);
    }
  }

  /** The copies when only one row was edited, and now reads `r`. */
  function CopyIf(loaded: Rule, r: Rule): seq<Rule> { if r == loaded then [] else [loaded] }

  lemma OneStep(rows: seq<Rule>, row: nat, r: Rule, e: Edit)
    requires row < |rows| && e.row == row && 0 <= e.v < 0x100
    requires r.base == rows[row].base && r.id == rows[row].id
    ensures var (next, copies) := Apply(rows[row := r], CopyIf(rows[row], r), e);
      && |next| == |rows| && next == rows[row := next[row]] && copies == CopyIf(rows[row], next[row])
      && next[row].base == rows[row].base && next[row].id == rows[row].id
  {
    var now, loaded := rows[row := r], rows[row];
    if Field(r, e.asOff) == e.v {
    } else if r == loaded {
      assert IndexOf([], r.base) == 0;
      assert [] + [r] == [r];
    } else {
      assert IndexOf([loaded], r.base) == 0;
      assert RemoveAt([loaded], 0) == [];
    }
  }

  /** A list freshly loaded, one row of it edited within the byte range, whatever else is
      alike to it. If the row ends as it was loaded, all is well. If not, getDirty also
      lists the rows alike to it, and cancelChanges gives them the edited row's loaded `off`
      and `policy`: they are restored exactly when they were loaded with the same ones. */
  lemma OneRowEdited(rows: seq<Rule>, row: nat, es: seq<Edit>, j: nat)
    requires row < |rows| && j < |rows| && Bytes(es) && forall e | e in es :: e.row == row
    ensures var (rows', saved') := ApplyAll(rows, [], es);
      && |rows'| == |rows| == |Cancelled(rows', saved')| && (j != row ==> rows'[j] == rows[j])
      && (Dirty(saved', rows'[j].base) <==> rows'[row] != rows[row] && SameBase(rows[row].base, rows[j].base))
      && (Cancelled(rows', saved')[j] == rows[j] <==>
            rows'[row] == rows[row] || !SameBase(rows[row].base, rows[j].base)
            || (rows[j].off == rows[row].off && rows[j].policy == rows[row].policy))
  {
    assert rows[row := rows[row]] == rows;
    OneRow(rows, row, rows[row], es);
    var (rows', saved') := ApplyAll(rows, [], es);
    hide ApplyAll, Bytes;
    MapIndex(rows', Restore(saved'));
    var r' := rows'[row];
    assert IndexOf([], rows'[j].base) == 0;
    assert Cancelled(rows', saved')[j] == Restored(rows'[j], saved');
  }

  function Other(v: u8): u8 { if v == 0 then 1 else 0 }

  /** Of two rows alike, editing one marks the other. */
  lemma AlikeMislead(rows: seq<Rule>, i: nat, j: nat)
    requires i < j < |rows| && SameBase(rows[i].base, rows[j].base)
    ensures var es := [Edit(i, Other(rows[i].off), true)];
      Bytes(es) && var (rows', saved') := ApplyAll(rows, [], es); !MarksRight(rows', saved', rows)
  {
    var e := Edit(i, Other(rows[i].off), true);
    assert Bytes([e]) && forall x | x in [e] :: x.row == i;
    One(rows, [], e);
    OneRowEdited(rows, i, [e], j);
    var (rows', saved') := ApplyAll(rows, [], [e]);
    assert rows'[i] != rows[i];
    assert Dirty(saved', rows'[j].base) && rows'[j] == rows[j];
  }

  /** The marks are right after every series of byte-range edits of a freshly loaded list
      exactly when no two of its rows are alike under operator==. */
  lemma MarksRightIff(rows: seq<Rule>)
    ensures (forall es: seq<Edit> | Bytes(es) ::
      var (rows', saved') := ApplyAll(rows, [], es); MarksRight(rows', saved', rows))
       <==> DistinctRules(rows)
  {
    if DistinctRules(rows) {
      assert Tracks(rows, [], rows);
      forall es: seq<Edit> | Bytes(es)
        ensures var (rows', saved') := ApplyAll(rows, [], es); MarksRight(rows', saved', rows)
      {
        hide DistinctRules, ApplyAll, Bytes;
        EditsTrack(rows, [], rows, es);
      }
    } else {
      var i, j :| 0 <= i < j < |rows| && SameBase(rows[i].base, rows[j].base);
      hide ApplyAll, Bytes, MarksRight;
      AlikeMislead(rows, i, j);
    }
  }

  lemma FirstEdit(rows: seq<Rule>, i: nat, v: u8)
    requires i < |rows| && rows[i].off != v
    ensures Apply(rows, [], Edit(i, v, true)) == (rows[i := rows[i].(off := v)], [rows[i]])
  {
    assert [] + [rows[i]] == [rows[i]];
  }

  lemma NextEdit(rows: seq<Rule>, copy: Rule, j: nat, v: u8)
    requires j < |rows| && rows[j].off != v && SameBase(copy.base, rows[j].base)
    ensures Apply(rows, [copy], Edit(j, v, true)) ==
      (rows[j := rows[j].(off := v)], if copy.off == v && copy.policy == rows[j].policy then [] else [copy])
  {
    assert IndexOf([copy], rows[j].base) == 0;
    assert RemoveAt([copy], 0) == [];
  }

  /** Edits of two rows alike and loaded with the same values after which nothing brings the
      first back: the second one's return to the copy's value drops the copy. */
  lemma CopyDropped(rows: seq<Rule>, i: nat, j: nat)
    requires i < j < |rows| && SameBase(rows[i].base, rows[j].base)
    requires rows[i].off == rows[j].off && rows[i].policy == rows[j].policy
    ensures var x := Other(rows[i].off);
      var es := [Edit(i, x, true), Edit(j, x, true), Edit(j, rows[j].off, true)];
      && Bytes(es) && var (rows', saved') := ApplyAll(rows, [], es);
      && rows' == rows[i := rows[i].(off := x)] && saved' == [] && Cancelled(rows', saved') != rows
  {
    var x := Other(rows[i].off);
    EditedTwice(rows, i, j, x);
    ThreeBytes(Edit(i, x, true), Edit(j, x, true), Edit(j, rows[j].off, true));
    hide ApplyAll, Bytes, Cancelled, SameBase;
    NoCopies(rows[i := rows[i].(off := x)]);
  }

  lemma ThreeBytes(a: Edit, b: Edit, c: Edit)
    requires 0 <= a.v < 0x100 && 0 <= b.v < 0x100 && 0 <= c.v < 0x100
    ensures Bytes([a, b, c])
  {
  }

  /** Without copies nothing is restored. */
  lemma NoCopies(rows: seq<Rule>)
    ensures Cancelled(rows, []) == rows
  {
    MapIndex(rows, Restore([]));
  }

  lemma EditedTwice(rows: seq<Rule>, i: nat, j: nat, x: u8)
    requires i < j < |rows| && SameBase(rows[i].base, rows[j].base) && rows[i].off != x
    requires rows[i].off == rows[j].off && rows[i].policy == rows[j].policy
    ensures ApplyAll(rows, [], [Edit(i, x, true), Edit(j, x, true), Edit(j, rows[j].off, true)]) ==
      (rows[i := rows[i].(off := x)], [])
  {
    var copy := rows[i];
    var rows1 := rows[i := copy.(off := x)];
    var rows2 := rows1[j := rows[j].(off := x)];
    hide Apply, ApplyAll;
    Three(rows, [], Edit(i, x, true), Edit(j, x, true), Edit(j, rows[j].off, true));
    FirstEdit(rows, i, x);
    NextEdit(rows1, copy, j, x);
    NextEdit(rows2, copy, j, rows[j].off);
    hide SameBase;
    assert rows2[j := rows[j]] == rows1 && rows2[j].(off := rows[j].off) == rows[j];
  }

  lemma Three(rows: seq<Rule>, saved: seq<Rule>, e1: Edit, e2: Edit, e3: Edit)
    ensures var (rows1, saved1) := Apply(rows, saved, e1);
      var (rows2, saved2) := Apply(rows1, saved1, e2);
      ApplyAll(rows, saved, [e1, e2, e3]) == Apply(rows2, saved2, e3)
  {
    var (rows1, saved1) := Apply(rows, saved, e1);
    var (rows2, saved2) := Apply(rows1, saved1, e2);
    hide Apply;
    assert [e1, e2, e3][1..] == [e2, e3] && [e2, e3][1..] == [e3];
    One(rows2, saved2, e3);
    assert ApplyAll(rows1, saved1, [e2, e3]) == ApplyAll(rows2, saved2, [e3]);
  }

  /** cancelChanges brings a freshly loaded list back after every series of byte-range edits
      exactly when no two of its rows are alike. */
  lemma CancelRestoresIff(rows: seq<Rule>)
    ensures (forall es: seq<Edit> | Bytes(es) ::
      var (rows', saved') := ApplyAll(rows, [], es); Cancelled(rows', saved') == rows)
       <==> DistinctRules(rows)
  {
    if DistinctRules(rows) {
      assert Tracks(rows, [], rows);
      forall es: seq<Edit> | Bytes(es)
        ensures var (rows', saved') := ApplyAll(rows, [], es); Cancelled(rows', saved') == rows
      {
        hide DistinctRules, ApplyAll, Bytes, Tracks;
        EditsTrack(rows, [], rows, es);
        CancelledBack(ApplyAll(rows, [], es).0, ApplyAll(rows, [], es).1, rows);
      }
    } else {
      var i, j :| 0 <= i < j < |rows| && SameBase(rows[i].base, rows[j].base);
      hide ApplyAll, Cancelled, DistinctRules;
      if rows[i].off == rows[j].off && rows[i].policy == rows[j].policy {
        hide Bytes;
        CopyDropped(rows, i, j);
      } else {
        var es := [Edit(i, Other(rows[i].off), true)];
        Overwritten(rows, i, j);
      }
    }
  }

  lemma Overwritten(rows: seq<Rule>, i: nat, j: nat)
    requires i < j < |rows| && SameBase(rows[i].base, rows[j].base)
    requires rows[i].off != rows[j].off || rows[i].policy != rows[j].policy
    ensures var es := [Edit(i, Other(rows[i].off), true)];
      Bytes(es) && var (rows', saved') := ApplyAll(rows, [], es); Cancelled(rows', saved') != rows
  {
    var e := Edit(i, Other(rows[i].off), true);
    assert Bytes([e]) && forall x | x in [e] :: x.row == i;
    One(rows, [], e);
    OneRowEdited(rows, i, [e], j);
  }

  lemma BothStored(a: Rule, b: Rule)
    requires a.base != b.base && !PolicyRule(a.base) && !PolicyRule(b.base)
    ensures RuleSpec.Run(RuleSpec.LOADED, [RuleSpec.AddRule(a), RuleSpec.AddRule(b)]).rules == [a, b]
  {
    var ms := [RuleSpec.AddRule(a), RuleSpec.AddRule(b)];
    assert ms[1..] == [RuleSpec.AddRule(b)] && ms[1..][1..] == [];
    assert [] + [a] == [a] && [a] + [b] == [a, b];
    var f := RuleSpec.Step(RuleSpec.LOADED, ms[0]).0;
    assert f == RuleSpec.LOADED.(rules := [a]);
    var g := RuleSpec.Step(f, ms[1]).0;
    assert !RuleSpec.Stored([a], b.base) && g.rules == [a, b];
    assert RuleSpec.Run(g, ms[1..][1..]) == g && RuleSpec.Run(f, ms[1..]) == g;
  }

  lemma CancelledPair(r: Rule, s: Rule, copy: Rule)
    requires SameBase(copy.base, r.base) && SameBase(copy.base, s.base)
    ensures Cancelled([r, s], [copy]) ==
      [r.(off := copy.off, policy := copy.policy), s.(off := copy.off, policy := copy.policy)]
  {
    assert IndexOf([copy], r.base) == 0 && IndexOf([copy], s.base) == 0;
    assert [r, s][1..] == [s] && [s][1..] == [];
    assert Map([s], Restore([copy])) == [Restored(s, [copy])];
  }

  /** One service on both chains, which the kernel stores as two rules: switching off the
      INPUT rule marks the OUTPUT rule, and cancelling writes the INPUT values over it. */
  lemma TwoChains()
    ensures var a, b := Rule(Base(CHAIN_INPUT, RuleSpec.TCP, 0, 80, 0, 0), 0, POLICY_ACCEPT, 0),
        Rule(Base(CHAIN_OUTPUT, RuleSpec.TCP, 0, 80, 0, 0), 1, POLICY_DROP, 0);
      && RuleSpec.Run(RuleSpec.LOADED, [RuleSpec.AddRule(a), RuleSpec.AddRule(b)]).rules == [a, b]
      && var (rows', saved') := ApplyAll([a, b], [], [Edit(0, 1, true)]);
      && rows' == [a.(off := 1), b] && Dirty(saved', b.base)
      && Cancelled(rows', saved') == [a, b.(off := 0, policy := POLICY_ACCEPT)]
  {
    var a, b := Rule(Base(CHAIN_INPUT, RuleSpec.TCP, 0, 80, 0, 0), 0, POLICY_ACCEPT, 0),
      Rule(Base(CHAIN_OUTPUT, RuleSpec.TCP, 0, 80, 0, 0), 1, POLICY_DROP, 0);
    BothStored(a, b);
    One([a, b], [], Edit(0, 1, true));
    FirstEdit([a, b], 0, 1);
    assert [a, b][0 := a.(off := 1)] == [a.(off := 1), b];
    DirtyAt([a], 0, b.base);
    CancelledPair(a.(off := 1), b, a);
  }
}
