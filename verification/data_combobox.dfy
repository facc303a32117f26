/**
 * components/compare/data-combobox.tsx: the single-pick dropdown of the
 * generic comparator. It remembers one selected option object, shows its
 * title on the button, and marks in its list the option with the same `id`.
 */
module DataPicker {
  import opened Js
  import opened Records

  /**
   * The selection after a click on `option`: the very object already selected
   * is cleared (`option === selected ? null : option`), anything else replaces it.
   */
  function Pick(selected: ComparatorOption?, option: ComparatorOption): (r: ComparatorOption?)
    ensures r == null <==> option == selected
    ensures r != null ==> r == option
  {
    if option == selected then null else option
  }

  /** The button text: the selected option's title, or the placeholder. */
  function ButtonText(selected: ComparatorOption?, placeholder: string): (r: string)
    ensures selected == null ==> r == placeholder
    ensures selected != null ==> r == selected.title
  {
    if selected != null then selected.title else placeholder
  }

  /** One row of the dropdown list. */
  datatype ItemView = ItemView(title: string, image: Option<string>, checked: bool)

  /** The dropdown list: "No data found" when there are no options. */
  datatype ListView = NoData | Items(items: seq<ItemView>)

  /** An option's row: its image when truthy, its title, and a check mark by `id`. */
  function ItemOf(option: ComparatorOption, selected: ComparatorOption?): ItemView {
    ItemView(
      option.title,
      if option.image != "" then Some(option.image) else None,
      selected != null && selected.id == option.id)
  }

  function ListOf(options: seq<ComparatorOption>, selected: ComparatorOption?): (r: ListView)
    ensures options == [] <==> r.NoData?
    ensures r.Items? ==> |r.items| == |options|
    ensures r.Items? ==> forall i | 0 <= i < |options| :: r.items[i] == ItemOf(options[i], selected)
  {
    if options == [] then NoData
    else Items(seq(|options|, i requires 0 <= i < |options| => ItemOf(options[i], selected)))
  }

  function Ids(options: seq<ComparatorOption>): (r: seq<int>)
    ensures |r| == |options| && forall i | 0 <= i < |options| :: r[i] == options[i].id
  {
    seq(|options|, i requires 0 <= i < |options| => options[i].id)
  }

  /** With distinct ids, at most one row is checked: the one with the selection's id. */
  lemma AtMostOneChecked(options: seq<ComparatorOption>, selected: ComparatorOption?, i: nat, j: nat)
    requires NoDuplicates(Ids(options))
    requires ListOf(options, selected).Items?
    requires i < j < |options|
    ensures !(ListOf(options, selected).items[i].checked && ListOf(options, selected).items[j].checked)
  {
    var ids := Ids(options);
    assert ids[i] != ids[j];
  }

  /**
   * Rows are checked by `id`: a row shows the check mark exactly when its
   * option has the selection's id, whether or not the selected object is listed.
   */
  lemma CheckedById(options: seq<ComparatorOption>, selected: ComparatorOption?, j: nat)
    requires j < |options|
    ensures ListOf(options, selected).Items?
    ensures ListOf(options, selected).items[j].checked <==> selected != null && options[j].id == selected.id
  {
  }

  /** A selected option that is listed is checked. */
  lemma SelectedIsChecked(options: seq<ComparatorOption>, selected: ComparatorOption?, i: nat)
    requires i < |options| && selected == options[i]
    ensures ListOf(options, selected).Items? && ListOf(options, selected).items[i].checked
  {
  }

  /**
   * Checked is not the same as selected: a different object with the selected
   * id (the same post, loaded again) is shown checked, but a click on it
   * replaces the selection instead of clearing it.
   */
  lemma CheckedButNotCleared(selected: ComparatorOption, option: ComparatorOption)
    requires option != selected && option.id == selected.id
    ensures ItemOf(option, selected).checked
    ensures Pick(selected, option) == option
  {
  }

  /**
   * Clicking the same object twice: a first click on an unselected object
   * selects it and the second clears it; a first click on the selected object
   * clears it and the second selects it again.
   */
  lemma PickTwice(selected: ComparatorOption?, option: ComparatorOption)
    ensures option != selected ==> Pick(Pick(selected, option), option) == null
    ensures option == selected ==> Pick(Pick(selected, option), option) == option
  {
  }

  /** The state of one `DataCombobox`: whether its popover is open, and its selection. */
  class DataCombobox {
    var open: bool
    var selected: ComparatorOption?

    constructor ()
      ensures !open && selected == null
    {
      open := false;
      selected := null;
    }

    /** `onOpenChange`: the popover opens or closes; the selection stays. */
    method SetOpen(value: bool)
      modifies this
      ensures open == value && selected == old(selected)
    {
      open := value;
    }

    /**
     * A click on `option`'s row: the selection becomes `Pick(selected, option)`,
     * the same value goes to the parent's `onSelect`, and the popover closes.
     */
    method OnSelect(option: ComparatorOption) returns (emitted: ComparatorOption?)
      modifies this
      ensures selected == Pick(old(selected), option)
      ensures emitted == selected && !open
    {
      var next := if option == selected then null else option;
      selected := next;
      emitted := next;
      open := false;
    }

    function Button(placeholder: string): string
      reads this
    {
      ButtonText(selected, placeholder)
    }

    function List(options: seq<ComparatorOption>): ListView
      reads this
    {
      ListOf(options, selected)
    }
  }
}
