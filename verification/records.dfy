/**
 * The option objects the two comparators hold and their pickers select, and
 * the comparison heading both comparators render.
 *
 * The pickers compare options by reference (`===`) but mark them by `id`, so
 * an option is an object: two loads of the same post give two different
 * objects with the same `id`.
 */
module Records {
  import opened Js

  /** One entry of the generic comparator, as its loader builds it. */
  class ComparatorOption {
    const id: int
    const title: string
    const image: string
    const content: string
    const acf: Fields

    constructor (id: int, title: string, image: string, content: string, acf: Fields)
      ensures this.id == id && this.title == title && this.image == image
      ensures this.content == content && this.acf == acf
    {
      this.id := id;
      this.title := title;
      this.image := image;
      this.content := content;
      this.acf := acf;
    }
  }

  /** One entry of the insurance comparator; each field may be `undefined`. */
  class AssuranceOption {
    const id: int
    const title: Option<string>
    const image: Option<string>
    const content: Option<string>

    constructor (id: int, title: Option<string>, image: Option<string>, content: Option<string>)
      ensures this.id == id && this.title == title && this.image == image && this.content == content
    {
      this.id := id;
      this.title := title;
      this.image := image;
      this.content := content;
    }
  }

  /** One cell of a comparison table. */
  datatype Cell =
    | Blank                                              // `option && <Image …/>` with no option
    | Picture(src: Option<string>, alt: Option<string>)  // `<Image src={…} alt={…}/>`
    | Text(text: Option<string>)                         // `{option?.title}`: nothing when absent
    | Lines(html: Option<string>)                        // `parseText(html)`
    | Attribute(value: Value)                            // `renderACFValue(…)`

  /** One body row: the feature name and the two options' cells. */
  datatype Row = Row(feature: string, left: Cell, right: Cell)

  /** `t` is a truthy title: present and not "". */
  predicate Shown(t: Option<string>) {
    t.Some? && t.value != ""
  }

  /**
   * The `<h2>` of a comparator, from `option1?.title` and `option2?.title`:
   * "Comparer", then " A vs B", " A", " B" or nothing, by which titles are truthy.
   */
  function Heading(t1: Option<string>, t2: Option<string>): (r: string)
    ensures |r| >= 8 && r[..8] == "Comparer"
  {
    "Comparer" +
    if Shown(t1) && Shown(t2) then " " + t1.value + " vs " + t2.value
    else if Shown(t1) then " " + t1.value
    else if Shown(t2) then " " + t2.value
    else ""
  }

  /**
   * The heading is bare exactly when neither title is truthy; otherwise it
   * starts with the first truthy title and ends with the last one.
   */
  lemma HeadingNames(t1: Option<string>, t2: Option<string>)
    ensures Heading(t1, t2) == "Comparer" <==> !Shown(t1) && !Shown(t2)
    ensures Shown(t1) ==> Heading(t1, t2)[..9 + |t1.value|] == "Comparer " + t1.value
    ensures Shown(t2) ==> Heading(t1, t2)[|Heading(t1, t2)| - |t2.value|..] == t2.value
    ensures Shown(t1) && !Shown(t2) ==> Heading(t1, t2) == "Comparer " + t1.value
    ensures !Shown(t1) && Shown(t2) ==> Heading(t1, t2) == "Comparer " + t2.value
    ensures Shown(t1) && Shown(t2) ==> Heading(t1, t2)[9 + |t1.value|..|Heading(t1, t2)| - |t2.value|] == " vs "
  {
    var h := Heading(t1, t2);
    if Shown(t1) && Shown(t2) {
      assert h == ("Comparer " + t1.value) + " vs " + t2.value;
      assert h == ("Comparer " + t1.value) + (" vs " + t2.value);
    }
  }
}
