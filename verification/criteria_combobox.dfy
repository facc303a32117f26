/**
 * components/compare/criteria-combobox.tsx: the multi-pick dropdown. It keeps
 * the selected criterion ids in selection order, toggles one id per click,
 * and has a "Sélectionner tout" row that selects every criterion or clears
 * the selection.
 */
module CriteriaPicker {
  import opened Js

  /** One entry of the `criteria` prop. */
  datatype Criterion = Criterion(id: string, labelText: string)

  /** `criteria.map(criterion => criterion.id)`. */
  function CriterionIds(criteria: seq<Criterion>): (r: seq<string>)
    ensures |r| == |criteria| && forall i | 0 <= i < |criteria| :: r[i] == criteria[i].id
  {
    seq(|criteria|, i requires 0 <= i < |criteria| => criteria[i].id)
  }

  /** `selected.filter(x => x !== id)`. */
  function Without(selected: seq<string>, id: string): (r: seq<string>)
    ensures |r| <= |selected|
  {
    if selected == [] then []
    else (if selected[0] == id then [] else [selected[0]]) + Without(selected[1..], id)
  }

  /** The selection `toggleCriteria` makes: `id` removed if present, appended otherwise. */
  function Toggled(selected: seq<string>, id: string): (r: seq<string>)
    ensures id !in selected ==> r == selected + [id]
    ensures id in selected ==> id !in r && |r| < |selected|
  {
    if id in selected then
      WithoutMembers(selected, id);
      WithoutShorter(selected, id);
      Without(selected, id)
    else selected + [id]
  }

  /** The selection `toggleSelectAll` makes: cleared when the lengths match, every id otherwise. */
  function SelectAllResult(selected: seq<string>, criteria: seq<Criterion>): (r: seq<string>)
    ensures r == [] || r == CriterionIds(criteria)
    ensures r == [] <==> |selected| == |criteria| || criteria == []
  {
    if |selected| == |criteria| then [] else CriterionIds(criteria)
  }

  /** Whether the "Sélectionner tout" row shows its check mark. */
  predicate AllChecked(selected: seq<string>, criteria: seq<Criterion>) {
    |selected| == |criteria|
  }

  /** The trigger button: "<count> selected", or the placeholder when nothing is selected. */
  function TriggerLabel(selected: seq<string>, placeholder: string): (r: string)
    ensures selected == [] ==> r == placeholder
    ensures selected != [] ==> r == NatToString(|selected|) + " selected"
    ensures selected != [] ==>
              |r| > 9 && r[|r| - 9..] == " selected"
              && (forall i | 0 <= i < |r| - 9 :: '0' <= r[i] <= '9')
              && DigitsValue(r[..|r| - 9]) == |selected|
  {
    if |selected| > 0 then
      var digits := NatToString(|selected|);
      NatToStringRoundTrip(|selected|);
      assert (digits + " selected")[..|digits|] == digits;
      digits + " selected"
    else placeholder
  }

  /** One criterion row: its label and whether it is highlighted and checked. */
  datatype CriterionView = CriterionView(labelText: string, isSelected: bool)

  /** The rows under "Sélectionner tout": the empty message when there are no criteria. */
  datatype RowsView = Empty(message: string) | Rows(rows: seq<CriterionView>)

  function RowsOf(criteria: seq<Criterion>, selected: seq<string>, emptyMessage: string): (r: RowsView)
    ensures criteria == [] <==> r.Empty?
    ensures r.Rows? ==> |r.rows| == |criteria|
    ensures r.Rows? ==> forall i | 0 <= i < |criteria| ::
              r.rows[i].labelText == criteria[i].labelText && (r.rows[i].isSelected <==> criteria[i].id in selected)
  {
    if criteria == [] then Empty(emptyMessage)
    else Rows(seq(|criteria|, i requires 0 <= i < |criteria| =>
                    CriterionView(criteria[i].labelText, criteria[i].id in selected)))
  }

  // ---------------------------------------------------------------------------
  // Properties of toggling
  // ---------------------------------------------------------------------------

  /** Filtering keeps exactly the other ids. */
  lemma {:induction false} WithoutMembers(selected: seq<string>, id: string)
    ensures forall x | x in Without(selected, id) :: x in selected && x != id
    ensures forall x | x in selected && x != id :: x in Without(selected, id)
  {
    if selected != [] {
      WithoutMembers(selected[1..], id);
      assert selected == [selected[0]] + selected[1..];
    }
  }

  /** Filtering out an id that is present shortens the selection. */
  lemma {:induction false} WithoutShorter(selected: seq<string>, id: string)
    requires id in selected
    ensures |Without(selected, id)| < |selected|
  {
    if selected[0] != id {
      WithoutShorter(selected[1..], id);
    }
  }

  /** Filtering an id that is absent changes nothing. */
  lemma {:induction false} WithoutAbsent(selected: seq<string>, id: string)
    requires id !in selected
    ensures Without(selected, id) == selected
  {
    if selected != [] {
      WithoutAbsent(selected[1..], id);
      assert selected == [selected[0]] + selected[1..];
    }
  }

  /** Removal does not reorder: an id held once is cut out where it stands. */
  lemma {:induction false} WithoutCutsOut(selected: seq<string>, i: nat)
    requires NoDuplicates(selected) && i < |selected|
    ensures Without(selected, selected[i]) == selected[..i] + selected[i + 1..]
  {
    var id := selected[i];
    if i == 0 {
      assert id !in selected[1..];
      WithoutAbsent(selected[1..], id);
    } else {
      assert NoDuplicates(selected[1..]);
      assert selected[1..][i - 1] == id;
      WithoutCutsOut(selected[1..], i - 1);
      assert selected[1..][..i - 1] + selected[1..][i..] == selected[1..i] + selected[i + 1..];
      assert selected[..i] == [selected[0]] + selected[1..i];
    }
  }

  /** Toggling flips exactly one id's membership. */
  lemma ToggledMembers(selected: seq<string>, id: string)
    ensures id in Toggled(selected, id) <==> id !in selected
    ensures forall x | x != id :: x in Toggled(selected, id) <==> x in selected
  {
    WithoutMembers(selected, id);
  }

  /** Toggling keeps every id at most once. */
  lemma ToggledDistinct(selected: seq<string>, id: string)
    requires NoDuplicates(selected)
    ensures NoDuplicates(Toggled(selected, id))
  {
    if id in selected {
      var i :| 0 <= i < |selected| && selected[i] == id;
      WithoutCutsOut(selected, i);
      CutOutDistinct(selected, i);
    } else {
      var added := selected + [id];
      forall j, k | 0 <= j < k < |added| ensures added[j] != added[k] {
        if k == |selected| {
          assert added[j] == selected[j];
        }
      }
    }
  }

  lemma CutOutDistinct(s: seq<string>, i: nat)
    requires NoDuplicates(s) && i < |s|
    ensures NoDuplicates(s[..i] + s[i + 1..])
  {
    var cut := s[..i] + s[i + 1..];
    forall j, k | 0 <= j < k < |cut| ensures cut[j] != cut[k] {
      var j' := if j < i then j else j + 1;
      var k' := if k < i then k else k + 1;
      assert cut[j] == s[j'] && cut[k] == s[k'];
    }
  }

  /** Toggling an unselected id twice gives back the selection, in its order. */
  lemma ToggleTwiceRestores(selected: seq<string>, id: string)
    requires id !in selected
    ensures Toggled(Toggled(selected, id), id) == selected
  {
    var added := selected + [id];
    assert added[..|selected|] + added[|selected| + 1..] == selected;
    assert id in added;
    if NoDuplicates(selected) {
      WithoutCutsOut(added, |selected|);
    } else {
      WithoutAppendAbsent(selected, id);
    }
  }

  lemma {:induction false} WithoutAppendAbsent(selected: seq<string>, id: string)
    requires id !in selected
    ensures Without(selected + [id], id) == selected
  {
    if selected == [] {
      assert [id][1..] == [];
    } else {
      assert (selected + [id])[1..] == selected[1..] + [id];
      WithoutAppendAbsent(selected[1..], id);
      assert selected == [selected[0]] + selected[1..];
    }
  }

  /** Toggling a selected id twice moves it to the end: the order is not restored. */
  lemma ToggleTwiceMovesToEnd(selected: seq<string>, i: nat)
    requires NoDuplicates(selected) && i < |selected|
    ensures Toggled(Toggled(selected, selected[i]), selected[i])
              == selected[..i] + selected[i + 1..] + [selected[i]]
  {
    var id := selected[i];
    WithoutCutsOut(selected, i);
    WithoutMembers(selected, id);
  }

  /** Example: with "a", "b" selected, toggling "a" twice gives "b", "a". */
  lemma ToggleTwiceExample()
    ensures Toggled(Toggled(["a", "b"], "a"), "a") == ["b", "a"]
  {
    ToggleTwiceMovesToEnd(["a", "b"], 0);
  }

  // ---------------------------------------------------------------------------
  // Properties of "select all"
  // ---------------------------------------------------------------------------

  /** The selection is well formed: distinct ids, each the id of a listed criterion. */
  predicate WellFormed(selected: seq<string>, criteria: seq<Criterion>) {
    NoDuplicates(CriterionIds(criteria)) && NoDuplicates(selected)
    && forall x | x in selected :: x in CriterionIds(criteria)
  }

  lemma {:induction false} DistinctCard(s: seq<string>)
    requires NoDuplicates(s)
    ensures |set x | x in s| == |s|
  {
    if s != [] {
      DistinctCard(s[1..]);
      assert (set x | x in s) == {s[0]} + (set x | x in s[1..]);
      assert s[0] !in (set x | x in s[1..]);
    }
  }

  lemma SubsetCard(a: set<string>, b: set<string>)
    requires a <= b
    ensures |a| <= |b|
    ensures |a| == |b| ==> a == b
  {
    var rest := b - a;
    assert b == a + rest && a * rest == {};
    if |a| == |b| {
      assert |rest| == 0;
      assert rest == {};
    }
  }

  /**
   * On a well-formed selection, the length test of "Sélectionner tout" is a
   * set test: the lengths match exactly when every criterion is selected.
   */
  lemma AllCheckedIffAllSelected(selected: seq<string>, criteria: seq<Criterion>)
    requires WellFormed(selected, criteria)
    ensures AllChecked(selected, criteria) <==> forall c | c in criteria :: c.id in selected
  {
    var ids := CriterionIds(criteria);
    var sel := set x | x in selected;
    var all := set x | x in ids;
    DistinctCard(selected);
    DistinctCard(ids);
    assert sel <= all;
    SubsetCard(sel, all);
    if forall c | c in criteria :: c.id in selected {
      forall x | x in all ensures x in sel {
        var i :| 0 <= i < |ids| && ids[i] == x;
        assert criteria[i] in criteria;
      }
      assert sel == all;
      assert |selected| == |criteria|;
    }
    if AllChecked(selected, criteria) {
      assert |sel| == |all|;
      assert sel == all;
      forall c | c in criteria ensures c.id in selected {
        var i :| 0 <= i < |criteria| && criteria[i] == c;
        assert ids[i] in all;
        assert ids[i] in sel;
      }
    }
  }

  /** Toggling a listed criterion and "select all" keep the selection well formed. */
  lemma ToggledWellFormed(selected: seq<string>, criteria: seq<Criterion>, c: Criterion)
    requires WellFormed(selected, criteria) && c in criteria
    ensures WellFormed(Toggled(selected, c.id), criteria)
  {
    ToggledDistinct(selected, c.id);
    ToggledMembers(selected, c.id);
    var i :| 0 <= i < |criteria| && criteria[i] == c;
    assert CriterionIds(criteria)[i] == c.id;
  }

  /** "Select all" yields a well-formed selection from any selection, stale ids included. */
  lemma SelectAllWellFormed(selected: seq<string>, criteria: seq<Criterion>)
    requires NoDuplicates(CriterionIds(criteria))
    ensures WellFormed(SelectAllResult(selected, criteria), criteria)
  {
  }

  /** From a partial selection, "select all" selects every criterion in list order; a second press clears. */
  lemma SelectAllTwice(selected: seq<string>, criteria: seq<Criterion>)
    requires !AllChecked(selected, criteria)
    ensures SelectAllResult(selected, criteria) == CriterionIds(criteria)
    ensures SelectAllResult(SelectAllResult(selected, criteria), criteria) == []
  {
  }

  /**
   * Without well-formedness the length test misleads: a selection holding an
   * id that is no longer listed counts as "all", and "select all" clears it.
   */
  lemma LengthIsNotContents()
    ensures var criteria := [Criterion("a", "A"), Criterion("b", "B")];
            var selected := ["a", "x"];
            AllChecked(selected, criteria) && "b" !in selected
            && SelectAllResult(selected, criteria) == []
  {
  }

  /**
   * The state of one `CriteriaCombobox`: its current `criteria` prop, whether
   * the popover is open, and the selected ids.
   */
  class CriteriaCombobox {
    var criteria: seq<Criterion>
    var open: bool
    var selectedCriteria: seq<string>

    /** Criterion ids are React keys, so they are distinct. */
    predicate KeysDistinct()
      reads this
    {
      NoDuplicates(CriterionIds(criteria))
    }

    /** The selection holds distinct ids, each of a listed criterion. */
    predicate Valid()
      reads this
    {
      WellFormed(selectedCriteria, criteria)
    }

    constructor (criteria: seq<Criterion>)
      requires NoDuplicates(CriterionIds(criteria))
      ensures Valid() && this.criteria == criteria && !open && selectedCriteria == []
    {
      this.criteria := criteria;
      open := false;
      selectedCriteria := [];
    }

    /**
     * A re-render with a new `criteria` prop: the selection state is kept as
     * it is, so it may now hold ids that are no longer listed.
     */
    method SetCriteria(newCriteria: seq<Criterion>)
      requires NoDuplicates(CriterionIds(newCriteria))
      modifies this
      ensures criteria == newCriteria && KeysDistinct()
      ensures selectedCriteria == old(selectedCriteria) && open == old(open)
    {
      criteria := newCriteria;
    }

    /** `onOpenChange`: the popover opens or closes; the selection stays. */
    method SetOpen(value: bool)
      modifies this
      ensures open == value && selectedCriteria == old(selectedCriteria) && criteria == old(criteria)
    {
      open := value;
    }

    /**
     * `toggleCriteria(c)`: the new selection is stored and passed to
     * `onCriteriaChange`. Toggling a listed criterion keeps a valid selection valid.
     */
    method ToggleCriteria(c: Criterion) returns (emitted: seq<string>)
      modifies this
      ensures selectedCriteria == Toggled(old(selectedCriteria), c.id)
      ensures emitted == selectedCriteria && open == old(open) && criteria == old(criteria)
      ensures old(Valid()) && c in criteria ==> Valid()
    {
      var updated: seq<string>;
      if c.id in selectedCriteria {
        updated := Without(selectedCriteria, c.id);
      } else {
        updated := selectedCriteria + [c.id];
      }
      if Valid() && c in criteria {
        ToggledWellFormed(selectedCriteria, criteria, c);
      }
      selectedCriteria := updated;
      emitted := updated;
    }

    /**
     * `toggleSelectAll()`: clear when the lengths match, otherwise select every
     * id. Either way the selection becomes valid, even one with stale ids.
     */
    method ToggleSelectAll() returns (emitted: seq<string>)
      modifies this
      ensures selectedCriteria == SelectAllResult(old(selectedCriteria), criteria)
      ensures emitted == selectedCriteria && open == old(open) && criteria == old(criteria)
      ensures old(KeysDistinct()) ==> Valid()
    {
      if KeysDistinct() {
        SelectAllWellFormed(selectedCriteria, criteria);
      }
      if |selectedCriteria| == |criteria| {
        selectedCriteria := [];
      } else {
        selectedCriteria := CriterionIds(criteria);
      }
      emitted := selectedCriteria;
    }

    function Label(placeholder: string): string
      reads this
    {
      TriggerLabel(selectedCriteria, placeholder)
    }

    function Rows(emptyMessage: string): RowsView
      reads this
    {
      RowsOf(criteria, selectedCriteria, emptyMessage)
    }
  }
}
