/**
 * components/compare/data-comparator.tsx: the generic two-slot comparator.
 * It loads the options through its `fetchData` prop, lets two pickers choose
 * `option1` and `option2`, shows the table once both are chosen, and builds
 * one row per ACF (custom field) key found in either option.
 */
module DataComparison {
  import opened Js
  import opened Records
  import opened Utils
  import DataPicker

  const NoTitle := "No title available"
  const NotAvailable := "N/A"

  // ---------------------------------------------------------------------------
  // The loader: `data?.map(item => ({ … }))`
  // ---------------------------------------------------------------------------

  /** `item?.title || 'No title available'`. */
  function LoadedTitle(item: DataOption): (r: string)
    ensures r != ""
  {
    if item.title != "" then item.title else NoTitle
  }

  /** `item.image || ''`. */
  function LoadedImage(item: DataOption): string {
    match item.image
    case None => ""
    case Some(url) => url
  }

  /** `item?.acf || {}`: any object is truthy. */
  function LoadedAcf(item: DataOption): Fields {
    match item.acf
    case None => []
    case Some(acf) => acf
  }

  /** `o` is the option the loader builds from `item` (`item?.content || ''` is the content itself). */
  predicate LoadedFrom(o: ComparatorOption, item: DataOption) {
    o.id == item.id && o.title == LoadedTitle(item) && o.image == LoadedImage(item)
    && o.content == item.content && o.acf == LoadedAcf(item)
  }

  /**
   * From a post to a loaded option: the post's rendered title when it is a
   * non-empty string, "No title available" otherwise; the featured image or
   * ""; the custom fields or none.
   */
  lemma LoadedFromPost(p: Post)
    ensures var item := ToDataOption(p);
            var titled := p.title.Some? && p.title.value.rendered.Some? && p.title.value.rendered.value != "";
            && (titled ==> LoadedTitle(item) == p.title.value.rendered.value)
            && (!titled ==> LoadedTitle(item) == NoTitle)
            && LoadedImage(item) == (if FeaturedImage(p.embedded).Some? then FeaturedImage(p.embedded).value else "")
            && LoadedAcf(item) == (if p.acf.Some? then p.acf.value else [])
            && item.id == p.id
  {
  }

  // ---------------------------------------------------------------------------
  // `renderACFValue`
  // ---------------------------------------------------------------------------

  /** An array joins with ", " ("N/A" when empty); any other value is kept when truthy, else "N/A". */
  function RenderAcfValue(v: Value): (r: Value)
    ensures !r.Arr?
  {
    match v
    case Arr(elems) => if |elems| > 0 then Str(ArrayJoin(elems, ", ")) else Str(NotAvailable)
    case _ => if Truthy(v) then v else Str(NotAvailable)
  }

  /**
   * What a cell shows: a truthy scalar as is, "N/A" for a falsy one or an
   * empty array, the ", "-joined elements of any other array.
   */
  lemma RenderAcfValueCases(v: Value)
    ensures !v.Arr? && Truthy(v) ==> RenderAcfValue(v) == v
    ensures !v.Arr? && !Truthy(v) ==> RenderAcfValue(v) == Str(NotAvailable)
    ensures v == Arr([]) ==> RenderAcfValue(v) == Str(NotAvailable)
    ensures v.Arr? && v.elems != [] ==> RenderAcfValue(v) == Str(ArrayJoin(v.elems, ", "))
  {
  }

  /**
   * The only blank cell comes from a one-element array whose element prints
   * as "" (`[null]`, `[""]`, `[[]]`): with two elements the ", " shows.
   */
  lemma RenderAcfValueBlank(v: Value)
    ensures !Truthy(RenderAcfValue(v)) <==> v.Arr? && |v.elems| == 1 && ArrayJoin(v.elems, ", ") == ""
  {
    if v.Arr? && |v.elems| >= 2 {
      var elems := v.elems;
      var head := if elems[0].Undefined? || elems[0].Null? then "" else ToString(elems[0]);
      assert ArrayJoin(elems, ", ") == head + ", " + ArrayJoin(elems[1..], ", ");
    }
  }

  lemma RenderAcfValueExamples()
    ensures RenderAcfValue(Arr([Str("red"), Str("blue")])) == Str("red, blue")
    ensures RenderAcfValue(Undefined) == Str(NotAvailable)
    ensures RenderAcfValue(Num(0)) == Str(NotAvailable)
    ensures RenderAcfValue(Num(7)) == Num(7)
  {
    assert ArrayJoin([Str("blue")], ", ") == "blue";
  }

  // ---------------------------------------------------------------------------
  // The ACF key union: `new Set([...Object.keys(option1?.acf || {}), ...Object.keys(option2?.acf || {})])`
  // ---------------------------------------------------------------------------

  function KeysOf(o: ComparatorOption?): seq<string> {
    if o == null then [] else Keys(o.acf)
  }

  /** The ACF keys of either option, each once, in `Set` insertion order. */
  function AcfKeys(o1: ComparatorOption?, o2: ComparatorOption?): (r: seq<string>)
    ensures forall k | k in r :: k in KeysOf(o1) || k in KeysOf(o2)
    ensures forall k | k in KeysOf(o1) || k in KeysOf(o2) :: k in r
  {
    InsertionOrder(KeysOf(o1) + KeysOf(o2))
  }

  /** Every key of either option appears exactly once, and no other key does. */
  lemma AcfKeysMembers(o1: ComparatorOption?, o2: ComparatorOption?)
    ensures NoDuplicates(AcfKeys(o1, o2))
    ensures forall k | k in AcfKeys(o1, o2) :: k in KeysOf(o1) || k in KeysOf(o2)
    ensures forall k | k in KeysOf(o1) || k in KeysOf(o2) :: k in AcfKeys(o1, o2)
  {
    InsertionOrderMembers(KeysOf(o1) + KeysOf(o2));
  }

  /** The first option's keys in their order, then the second's not already listed, in theirs. */
  lemma AcfKeysOrder(o1: ComparatorOption?, o2: ComparatorOption?)
    requires NoDuplicates(KeysOf(o1)) && NoDuplicates(KeysOf(o2))
    ensures AcfKeys(o1, o2) == KeysOf(o1) + Unseen(KeysOf(o2), KeysOf(o1))
  {
    InsertionOrderAppend(KeysOf(o1), KeysOf(o2));
  }

  /** `{color, size}` and `{size, weight}` give the rows color, size, weight. */
  lemma AcfKeysExample(o1: ComparatorOption, o2: ComparatorOption)
    requires Keys(o1.acf) == ["color", "size"] && Keys(o2.acf) == ["size", "weight"]
    ensures AcfKeys(o1, o2) == ["color", "size", "weight"]
  {
    AcfKeysOrder(o1, o2);
    var rest: seq<string> := ["weight"];
    assert Unseen(["size", "weight"], ["color", "size"]) == Unseen(rest, ["color", "size"]);
  }

  // ---------------------------------------------------------------------------
  // The comparison table
  // ---------------------------------------------------------------------------

  /** `option?.acf[key]`: `undefined` without an option. */
  function AcfOf(o: ComparatorOption?, key: string): Value {
    if o == null then Undefined else Get(o.acf, key)
  }

  function TitleOf(o: ComparatorOption?): Option<string> {
    if o == null then None else Some(o.title)
  }

  function ImageCell(o: ComparatorOption?): Cell {
    if o == null then Blank else Picture(Some(o.image), Some(o.title))
  }

  /** `option?.content || ''`. */
  function ContentOf(o: ComparatorOption?): string {
    if o == null then "" else o.content
  }

  /** The row of one key: its formatted name, and each option's rendered value for it. */
  function AcfRow(o1: ComparatorOption?, o2: ComparatorOption?, key: string): (r: Row)
    ensures |r.feature| == |key|
    ensures r.left.Attribute? && !r.left.value.Arr? && r.right.Attribute? && !r.right.value.Arr?
    ensures key !in KeysOf(o1) ==> r.left == Attribute(Str(NotAvailable))
    ensures key !in KeysOf(o2) ==> r.right == Attribute(Str(NotAvailable))
  {
    Row(FormatMachineNames(key, map[]),
        Attribute(RenderAcfValue(AcfOf(o1, key))),
        Attribute(RenderAcfValue(AcfOf(o2, key))))
  }

  /** The body rows: Image, Title, Description, then one row per key of the union. */
  function Table(o1: ComparatorOption?, o2: ComparatorOption?): (r: seq<Row>)
    ensures |r| == 3 + |AcfKeys(o1, o2)|
    ensures r[0].feature == "Image" && r[1].feature == "Title" && r[2].feature == "Description"
    ensures forall i | 0 <= i < |AcfKeys(o1, o2)| :: r[3 + i] == AcfRow(o1, o2, AcfKeys(o1, o2)[i])
  {
    var keys := AcfKeys(o1, o2);
    [Row("Image", ImageCell(o1), ImageCell(o2)),
     Row("Title", Text(TitleOf(o1)), Text(TitleOf(o2))),
     Row("Description", Lines(Some(ContentOf(o1))), Lines(Some(ContentOf(o2))))]
    + seq(|keys|, i requires 0 <= i < |keys| => AcfRow(o1, o2, keys[i]))
  }

  /** A key that one side lacks shows "N/A" on that side. */
  lemma MissingKeyShowsNotAvailable(o1: ComparatorOption?, o2: ComparatorOption?, i: nat)
    requires i < |AcfKeys(o1, o2)|
    ensures AcfKeys(o1, o2)[i] !in KeysOf(o1) ==> Table(o1, o2)[3 + i].left == Attribute(Str(NotAvailable))
    ensures AcfKeys(o1, o2)[i] !in KeysOf(o2) ==> Table(o1, o2)[3 + i].right == Attribute(Str(NotAvailable))
  {
  }

  /** There are at least as many ACF rows as either option has keys, and at most both together. */
  lemma AcfRowCount(o1: ComparatorOption?, o2: ComparatorOption?)
    requires NoDuplicates(KeysOf(o1)) && NoDuplicates(KeysOf(o2))
    ensures |KeysOf(o1)| <= |Table(o1, o2)| - 3 <= |KeysOf(o1)| + |KeysOf(o2)|
  {
    AcfKeysOrder(o1, o2);
    UnseenLength(KeysOf(o2), KeysOf(o1));
  }

  lemma {:induction false} UnseenLength(s: seq<string>, seen: seq<string>)
    ensures |Unseen(s, seen)| <= |s|
  {
    if s != [] {
      UnseenLength(s[1..], seen);
    }
  }

  /** Loaded titles are never empty, so with two options the heading names both. */
  lemma LoadedHeading(o1: ComparatorOption, o2: ComparatorOption, item1: DataOption, item2: DataOption)
    requires LoadedFrom(o1, item1) && LoadedFrom(o2, item2)
    ensures Heading(TitleOf(o1), TitleOf(o2)) == "Comparer " + o1.title + " vs " + o2.title
  {
  }

  /** The state of one `DataComparator`; its two pickers hold `option1` and `option2`. */
  class DataComparator {
    var comparatorOptions: seq<ComparatorOption>
    var option1: ComparatorOption?
    var option2: ComparatorOption?
    var showComparison: bool
    const picker1: DataPicker.DataCombobox
    const picker2: DataPicker.DataCombobox

    /** Each option is what its picker last passed to `onSelect`. */
    predicate Valid()
      reads this, picker1, picker2
    {
      picker1 != picker2 && option1 == picker1.selected && option2 == picker2.selected
    }

    constructor ()
      ensures Valid() && fresh(picker1) && fresh(picker2)
      ensures comparatorOptions == [] && option1 == null && option2 == null && !showComparison
    {
      comparatorOptions := [];
      option1 := null;
      option2 := null;
      showComparison := false;
      picker1 := new DataPicker.DataCombobox();
      picker2 := new DataPicker.DataCombobox();
    }

    /** The loader, once `fetchData` resolves with `items`: one new option object per item. */
    method Load(items: seq<DataOption>)
      requires Valid()
      modifies this
      ensures Valid() && |comparatorOptions| == |items|
      ensures forall i | 0 <= i < |items| :: fresh(comparatorOptions[i]) && LoadedFrom(comparatorOptions[i], items[i])
      ensures option1 == old(option1) && option2 == old(option2) && showComparison == old(showComparison)
    {
      var loaded: seq<ComparatorOption> := [];
      for i := 0 to |items|
        invariant |loaded| == i
        invariant forall j | 0 <= j < i :: fresh(loaded[j]) && LoadedFrom(loaded[j], items[j])
        invariant unchanged(this)
      {
        var item := items[i];
        var o := new ComparatorOption(item.id, LoadedTitle(item), LoadedImage(item), item.content, LoadedAcf(item));
        loaded := loaded + [o];
      }
      comparatorOptions := loaded;
    }

    /** A click in the first picker; its `onSelect` is `setOption1`. */
    method PickFirst(option: ComparatorOption)
      requires Valid()
      modifies this, picker1
      ensures Valid() && option1 == DataPicker.Pick(old(option1), option) && !picker1.open
      ensures option2 == old(option2) && showComparison == old(showComparison)
      ensures comparatorOptions == old(comparatorOptions)
    {
      var emitted := picker1.OnSelect(option);
      option1 := emitted;
    }

    /** A click in the second picker; its `onSelect` is `setOption2`. */
    method PickSecond(option: ComparatorOption)
      requires Valid()
      modifies this, picker2
      ensures Valid() && option2 == DataPicker.Pick(old(option2), option) && !picker2.open
      ensures option1 == old(option1) && showComparison == old(showComparison)
      ensures comparatorOptions == old(comparatorOptions)
    {
      var emitted := picker2.OnSelect(option);
      option2 := emitted;
    }

    /**
     * `handleCompare`: with both options the table is shown; otherwise the
     * alert is raised and nothing changes. Nothing ever hides the table again.
     */
    method HandleCompare() returns (alerted: bool)
      modifies this
      ensures alerted <==> old(option1) == null || old(option2) == null
      ensures showComparison == (old(showComparison) || !alerted)
      ensures option1 == old(option1) && option2 == old(option2)
      ensures comparatorOptions == old(comparatorOptions)
    {
      if option1 != null && option2 != null {
        showComparison := true;
        alerted := false;
      } else {
        alerted := true;
      }
    }

    function HeadingText(): string
      reads this
    {
      Heading(TitleOf(option1), TitleOf(option2))
    }

    /** `showComparison && renderComparisonTable()`: built from the current options. */
    function Comparison(): (r: Option<seq<Row>>)
      reads this
      ensures r.Some? <==> showComparison
      ensures r.Some? ==> |r.value| == 3 + |AcfKeys(option1, option2)|
    {
      if showComparison then Some(Table(option1, option2)) else None
    }
  }
}
