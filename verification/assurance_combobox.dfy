/**
 * components/compare/autocomplete.tsx: `AssuranceCombobox`, the single-pick
 * dropdown of the insurance comparator. Same selection rule as the generic
 * picker; its list has no empty-state branch and always shows an image.
 */
module AssurancePicker {
  import opened Js
  import opened Records

  /** The selection after a click on `option`: the selected object itself clears it. */
  function Pick(selected: AssuranceOption?, option: AssuranceOption): (r: AssuranceOption?)
    ensures r == null <==> option == selected
    ensures r != null ==> r == option
  {
    if option == selected then null else option
  }

  /** The button text: `selected ? selected.title : placeholder` (a missing title shows nothing). */
  function ButtonText(selected: AssuranceOption?, placeholder: string): (r: string)
    ensures selected == null ==> r == placeholder
    ensures selected != null ==> r == if selected.title.Some? then selected.title.value else ""
  {
    if selected == null then placeholder
    else match selected.title case None => "" case Some(t) => t
  }

  /** One row of the dropdown: the image (its `src` may be undefined), the title, the check mark. */
  datatype ItemView = ItemView(image: Option<string>, title: Option<string>, checked: bool)

  function ItemOf(option: AssuranceOption, selected: AssuranceOption?): ItemView {
    ItemView(option.image, option.title, selected != null && selected.id == option.id)
  }

  function ListOf(options: seq<AssuranceOption>, selected: AssuranceOption?): (r: seq<ItemView>)
    ensures |r| == |options|
    ensures forall i | 0 <= i < |options| :: r[i] == ItemOf(options[i], selected)
  {
    seq(|options|, i requires 0 <= i < |options| => ItemOf(options[i], selected))
  }

  /**
   * Rows are checked by `id`: a row shows the check mark exactly when its
   * option has the selection's id, whether or not the selected object is listed.
   */
  lemma CheckedById(options: seq<AssuranceOption>, selected: AssuranceOption?, j: nat)
    requires j < |options|
    ensures ListOf(options, selected)[j].checked <==> selected != null && options[j].id == selected.id
  {
  }

  /** A different object with the selected id is shown checked, yet a click replaces the selection. */
  lemma CheckedButNotCleared(selected: AssuranceOption, option: AssuranceOption)
    requires option != selected && option.id == selected.id
    ensures ItemOf(option, selected).checked
    ensures Pick(selected, option) == option
  {
  }

  /** The state of one `AssuranceCombobox`. */
  class AssuranceCombobox {
    var open: bool
    var selected: AssuranceOption?

    constructor ()
      ensures !open && selected == null
    {
      open := false;
      selected := null;
    }

    /** `onOpenChange`: the popover opens or closes; the selection stays. */
    method SetOpen(value: bool)
      modifies this
      ensures open == value && selected == old(selected)
    {
      open := value;
    }

    /** A click on `option`'s row: select or clear, tell the parent, close the popover. */
    method OnSelect(option: AssuranceOption) returns (emitted: AssuranceOption?)
      modifies this
      ensures selected == Pick(old(selected), option)
      ensures emitted == selected && !open
    {
      var next := if option == selected then null else option;
      selected := next;
      emitted := next;
      open := false;
    }

    function Button(placeholder: string): string
      reads this
    {
      ButtonText(selected, placeholder)
    }

    function List(options: seq<AssuranceOption>): seq<ItemView>
      reads this
    {
      ListOf(options, selected)
    }
  }
}
