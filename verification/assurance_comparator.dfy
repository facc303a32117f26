/**
 * components/compare/assurance-comparator.tsx: the insurance comparator. It
 * loads posts itself, reading `title.rendered`, the featured image and
 * `content.rendered` without defaults, and compares two assurances on a fixed
 * three-row table (no custom-field rows).
 */
module AssuranceComparison {
  import opened Js
  import opened Records
  import opened Utils
  import AssurancePicker

  const NoRenderedObject := "Cannot read properties of undefined (reading 'rendered')"
  const NoEmbedded := "Cannot read properties of undefined (reading 'wp:featuredmedia')"

  /** The fields the loader reads from one post; each may be `undefined`. */
  datatype AssuranceFields = AssuranceFields(
    id: int, title: Option<string>, image: Option<string>, content: Option<string>)

  /**
   * The loader's object literal, evaluated field by field: `item.title.rendered`
   * and `item.content.rendered` throw without a title or content object, and
   * `item._embedded["wp:featuredmedia"]` throws without `_embedded`.
   */
  function AssuranceFromPost(p: Post): (r: Completion<AssuranceFields>)
    ensures r.Normal? <==> p.title.Some? && p.embedded.Some? && p.content.Some?
    ensures p.title.None? ==> r == Throw(NoRenderedObject)
    ensures p.title.Some? && p.embedded.None? ==> r == Throw(NoEmbedded)
    ensures p.title.Some? && p.embedded.Some? && p.content.None? ==> r == Throw(NoRenderedObject)
    ensures r.Normal? ==> r.value == AssuranceFields(
              p.id, p.title.value.rendered, FeaturedImage(p.embedded), p.content.value.rendered)
  {
    if p.title.None? then Throw(NoRenderedObject)
    else if p.embedded.None? then Throw(NoEmbedded)
    else if p.content.None? then Throw(NoRenderedObject)
    else Normal(AssuranceFields(p.id, p.title.value.rendered, MediaUrl(p.embedded.value), p.content.value.rendered))
  }

  /**
   * Where this loader succeeds it reads what `fetchData` reads, except that
   * `fetchData` turns a missing rendered title or content into "".
   */
  lemma AssuranceAgreesWithFetchData(p: Post)
    requires AssuranceFromPost(p).Normal?
    ensures var a := AssuranceFromPost(p).value;
            var d := ToDataOption(p);
            && a.id == d.id && a.image == d.image
            && d.title == (if a.title.Some? then a.title.value else "")
            && d.content == (if a.content.Some? then a.content.value else "")
  {
  }

  /** The option object holds the fields read from its post. */
  predicate Holds(o: AssuranceOption, f: AssuranceFields) {
    o.id == f.id && o.title == f.title && o.image == f.image && o.content == f.content
  }

  function TitleOf(a: AssuranceOption?): Option<string> {
    if a == null then None else a.title
  }

  function ImageCell(a: AssuranceOption?): Cell {
    if a == null then Blank else Picture(a.image, a.title)
  }

  /** `assurance?.content`, passed to `parseText` as it is. */
  function ContentOf(a: AssuranceOption?): Option<string> {
    if a == null then None else a.content
  }

  /** The body rows: always Image, Title and Description, whatever is selected. */
  function Table(a1: AssuranceOption?, a2: AssuranceOption?): (r: seq<Row>)
    ensures |r| == 3
    ensures r[0].feature == "Image" && r[1].feature == "Title" && r[2].feature == "Description"
    ensures r[0].left.Blank? <==> a1 == null
    ensures r[0].right.Blank? <==> a2 == null
    ensures r[2].left == Lines(ContentOf(a1)) && r[2].right == Lines(ContentOf(a2))
  {
    [Row("Image", ImageCell(a1), ImageCell(a2)),
     Row("Title", Text(TitleOf(a1)), Text(TitleOf(a2))),
     Row("Description", Lines(ContentOf(a1)), Lines(ContentOf(a2)))]
  }

  /** The state of one `AssuranceComparator`; its two pickers hold `assurance1` and `assurance2`. */
  class AssuranceComparator {
    var assuranceOptions: seq<AssuranceOption>
    var assurance1: AssuranceOption?
    var assurance2: AssuranceOption?
    var showComparison: bool
    const picker1: AssurancePicker.AssuranceCombobox
    const picker2: AssurancePicker.AssuranceCombobox

    /** Each assurance is what its picker last passed to `onSelect`. */
    predicate Valid()
      reads this, picker1, picker2
    {
      picker1 != picker2 && assurance1 == picker1.selected && assurance2 == picker2.selected
    }

    constructor ()
      ensures Valid() && fresh(picker1) && fresh(picker2)
      ensures assuranceOptions == [] && assurance1 == null && assurance2 == null && !showComparison
    {
      assuranceOptions := [];
      assurance1 := null;
      assurance2 := null;
      showComparison := false;
      picker1 := new AssurancePicker.AssuranceCombobox();
      picker2 := new AssurancePicker.AssuranceCombobox();
    }

    /**
     * `loadAssurances`: `data.map(…)` builds every object before the state is
     * set, so the first post the loader cannot read rejects the load and the
     * options stay as they were.
     */
    method Load(items: seq<Post>) returns (error: Option<string>)
      requires Valid()
      modifies this
      ensures Valid()
      ensures assurance1 == old(assurance1) && assurance2 == old(assurance2)
      ensures showComparison == old(showComparison)
      ensures error.None? <==> forall i | 0 <= i < |items| :: AssuranceFromPost(items[i]).Normal?
      ensures error.Some? ==>
                assuranceOptions == old(assuranceOptions)
                && exists i | 0 <= i < |items| ::
                     AssuranceFromPost(items[i]) == Throw(error.value)
                     && forall j | 0 <= j < i :: AssuranceFromPost(items[j]).Normal?
      ensures error.None? ==>
                |assuranceOptions| == |items|
                && forall i | 0 <= i < |items| ::
                     fresh(assuranceOptions[i]) && Holds(assuranceOptions[i], AssuranceFromPost(items[i]).value)
    {
      var loaded: seq<AssuranceOption> := [];
      for i := 0 to |items|
        invariant |loaded| == i
        invariant forall j | 0 <= j < i :: AssuranceFromPost(items[j]).Normal?
        invariant forall j | 0 <= j < i :: fresh(loaded[j]) && Holds(loaded[j], AssuranceFromPost(items[j]).value)
        invariant unchanged(this)
      {
        var read := AssuranceFromPost(items[i]);
        if read.Throw? {
          return Some(read.message);
        }
        var f := read.value;
        var o := new AssuranceOption(f.id, f.title, f.image, f.content);
        loaded := loaded + [o];
      }
      assuranceOptions := loaded;
      error := None;
    }

    /** A click in the first picker; its `onSelect` is `setAssurance1`. */
    method PickFirst(option: AssuranceOption)
      requires Valid()
      modifies this, picker1
      ensures Valid() && assurance1 == AssurancePicker.Pick(old(assurance1), option) && !picker1.open
      ensures assurance2 == old(assurance2) && showComparison == old(showComparison)
      ensures assuranceOptions == old(assuranceOptions)
    {
      var emitted := picker1.OnSelect(option);
      assurance1 := emitted;
    }

    /** A click in the second picker; its `onSelect` is `setAssurance2`. */
    method PickSecond(option: AssuranceOption)
      requires Valid()
      modifies this, picker2
      ensures Valid() && assurance2 == AssurancePicker.Pick(old(assurance2), option) && !picker2.open
      ensures assurance1 == old(assurance1) && showComparison == old(showComparison)
      ensures assuranceOptions == old(assuranceOptions)
    {
      var emitted := picker2.OnSelect(option);
      assurance2 := emitted;
    }

    /**
     * `handleCompare`: with both assurances the table is shown; otherwise the
     * alert is raised and nothing changes. Nothing ever hides the table again.
     */
    method HandleCompare() returns (alerted: bool)
      modifies this
      ensures alerted <==> old(assurance1) == null || old(assurance2) == null
      ensures showComparison == (old(showComparison) || !alerted)
      ensures assurance1 == old(assurance1) && assurance2 == old(assurance2)
      ensures assuranceOptions == old(assuranceOptions)
    {
      if assurance1 != null && assurance2 != null {
        showComparison := true;
        alerted := false;
      } else {
        alerted := true;
      }
    }

    function HeadingText(): string
      reads this
    {
      Heading(TitleOf(assurance1), TitleOf(assurance2))
    }

    /** `showComparison && renderComparisonTable()`: the three rows of the current assurances. */
    function Comparison(): (r: Option<seq<Row>>)
      reads this
      ensures r.Some? <==> showComparison
      ensures r.Some? ==> |r.value| == 3 && r.value[2].left == Lines(ContentOf(assurance1))
                          && r.value[2].right == Lines(ContentOf(assurance2))
    {
      if showComparison then Some(Table(assurance1, assurance2)) else None
    }
  }
}
