# comparateur-pandore, modelled in Dafny

A model of the logic behind the comparison pages of comparateur-pandore, a
Next.js front end over a WordPress REST API. Users pick two posts, such as two
insurance offers, and compare them side by side. The model covers:

- `lib/utils.ts`:
  - the label formatter `formatMachineNames`;
  - the line segmenter inside `parseText`, a method with its loop, proved
    against a specification function;
  - the per-post mapping of `fetchData`.
- `components/compare/data-comparator.tsx`, the generic comparator, as a class:
  - the loader defaults;
  - `renderACFValue`;
  - the ordered union of the custom-field (ACF) keys;
  - the comparison table;
  - the heading;
  - the `handleCompare` guard over `option1`, `option2` and `showComparison`.
- `components/compare/assurance-comparator.tsx`, the insurance comparator, as a
  class:
  - its stricter loader, which can throw;
  - its fixed three-row table;
  - its heading and its compare guard.
- `components/compare/criteria-combobox.tsx`, the multi-pick dropdown, as a
  class with its `selectedCriteria` sequence: `toggleCriteria`,
  `toggleSelectAll` and the trigger label.
- `components/compare/data-combobox.tsx` and
  `components/compare/autocomplete.tsx`, the single-pick dropdowns, as classes
  with `selected` and `open` fields and their toggle-off `onSelect` handler.

The supporting files are:

- `js.dfy` models the JavaScript built-ins the code relies on:
  - truthiness and `String(...)`;
  - `Array.prototype.join`;
  - `trim`, `substring` with clamping and swapping, `split` and `join`;
  - the insertion order of a `Set`;
  - `Object.keys` order.
- `records.dfy` holds the option objects. They are classes, because the
  pickers compare them by reference (`===`) but mark them by `id`. It also
  holds the table cells and the heading that both comparators share.

`parseText` gets its input from the browser's `DOMParser`. Here that input is
abstract:

- the body's `textContent`;
- for each `<br>` in document order, the text length of its previous sibling,
  or none when the `<br>` has no previous sibling.

Reading `textContent` of a missing sibling is a `TypeError`, modelled as a
`Throw` result. A flat body (a list of `<br>` and text nodes) connects those
inputs to the document they come from.

## Model

| member | source | states |
|---|---|---|
| Utils.FormatMachineNames | lib/utils.ts:41-56 | A truthy override for the key is returned verbatim. Otherwise the label has exactly the key's length. |
| Utils.EmptyOverrideFallsThrough | lib/utils.ts:43-45 | An override mapped to "" is falsy, so the key is formatted as if there were no override. |
| Utils.FormatMachineNamesWords | lib/utils.ts:48-53 | Without a truthy override, character i of the label is character i of the key with `_` and `-` turned into spaces. It is upper-cased exactly when it starts a space-separated word. The rest of every word is kept, not lower-cased. |
| Utils.FormatMachineNamesNoSeparators | lib/utils.ts:48 | Without a truthy override, the label contains no `_` and no `-`. |
| Utils.FormatMachineNamesIdempotent | lib/utils.ts:48-55 | With no overrides, formatting a label again gives the same label. |
| Utils.TitleCaseIsCapitalizeWords | lib/utils.ts:51-53 | Split at spaces, capitalise each word and join again equals the one-pass reference: upper-case a character iff it is first or follows a space. |
| Utils.SplitCapitalizeJoin | lib/utils.ts:51-53 | The same equality, generalised to a first word that may or may not be capitalised (the induction step). |
| Utils.TitleCaseIdempotent | lib/utils.ts:51-53 | Capitalising word starts twice is capitalising them once. |
| Utils.FormatMachineNamesExample | lib/utils.ts:41-56 | "fuel_type" gives "Fuel Type". With the override "Carburant" it gives "Carburant". |
| Utils.ParseText | lib/utils.ts:21-35 | The segmentation loop returns `ParsedLines(text, cuts)`. It throws at a `<br>` without a previous sibling. Otherwise it returns the trimmed pieces `substring(lastIndex, cut)` and the trimmed tail, with empty lines dropped. |
| Utils.ParsedLinesThrows | lib/utils.ts:26-29 | `parseText` throws exactly when some `<br>` has no previous sibling. |
| Utils.ParsedLinesClean | lib/utils.ts:28-35 | No line of the result is empty, and every line equals its own trim. |
| Utils.ParsedLinesCount | lib/utils.ts:26-35 | The result has at most one line per `<br>`, plus one. |
| Utils.ParsedLinesWithoutBreaks | lib/utils.ts:18-35 | Without `<br>`, the result is the trimmed text, or no line when the trimmed text is empty. |
| Utils.ParsedLines | lib/utils.ts:24-35 | A failed parse is the null-sibling TypeError, and a successful one means every `<br>` had a previous sibling. |
| Utils.ParseBody | lib/utils.ts:13-36 | On a flat body, `parseText` throws exactly when the body starts with `<br>`. |
| Utils.FirstCutOnly | lib/utils.ts:26-29 | In a flat body only a leading `<br>` lacks a previous sibling. |
| Utils.SegmentAt | lib/utils.ts:25-33 | Piece i runs from the previous cut (or 0) to cut i (or the end of the text), as `substring` computes it. |
| Utils.NonEmptyMembers | lib/utils.ts:35 | The filter keeps exactly the non-empty lines. |
| Utils.ParseBodyMergesLines | lib/utils.ts:27-29 | As written, for the body a`<br>`b`<br>`c with a and b of the same length, the result is [a, b + c]: a line break is lost. |
| Utils.ParseBodyRepeatsLines | lib/utils.ts:27-29 | As written, for the body a`<br><br>`b the result is [a, a, a + b]. |
| Utils.ParseBodyLeadingBreakThrows | lib/utils.ts:27 | As written, a body that starts with `<br>` throws. |
| Utils.SegmentsAtBreakOffsets | lib/utils.ts:25-33 | Cutting the body text at the offsets where the `<br>`s stand yields exactly the text between consecutive `<br>`s. |
| Utils.ParseBodyCorrectedLines | lib/utils.ts:13-36 | With each `<br>` cut where it stands, the result is the trimmed, non-empty texts between consecutive `<br>`s. |
| Utils.ParseBodyCorrectedThreeLines | lib/utils.ts:24-35 | Corrected, a`<br>`b`<br>`c gives [a, b, c] for any lengths. |
| Utils.ParseBodyCorrectedDoubleBreak | lib/utils.ts:24-35 | Corrected, a`<br><br>`b gives [a, b]. |
| Utils.ParseBodyCorrectedLeadingBreak | lib/utils.ts:24-35 | Corrected, a leading `<br>` changes nothing. |
| Utils.FeaturedImage | lib/utils.ts:100 | The image is present exactly when every link of the `_embedded` path exists. It is then the first media entry's full-size URL. |
| Utils.ToDataOption | lib/utils.ts:97-104 | `id`, `acf` and `date` are copied. The title and content are the rendered strings, or "" exactly when one is missing or empty. The image is the featured image. |
| Js.Get | components/compare/data-comparator.tsx:119-120 | A key the object lacks reads `undefined`. With distinct keys, a present key reads its own value. |
| Js.InsertionOrderMembers | components/compare/data-comparator.tsx:79-82 | A `Set` built from a list holds each of its elements exactly once, and nothing else. |
| Js.InsertionOrderAppend | components/compare/data-comparator.tsx:79-82 | A `Set` built from a then b (each duplicate-free) iterates a, then the elements of b not in a, in b's order. |
| Js.SetAddAllDistinct | components/compare/data-comparator.tsx:79-82 | Adding elements to a duplicate-free `Set` keeps it duplicate-free. |
| Js.SetAddAllDistinctElems | components/compare/data-comparator.tsx:79-82 | Adding distinct elements appends exactly those not yet present, in their order. |
| Js.TrimIdempotent | lib/utils.ts:28 | `trim` applied to a trimmed string changes nothing. |
| Js.Trim | lib/utils.ts:28 | The trimmed string is a slice `s[i..j]` of its input, with only white space before i and after j. It neither starts nor ends with white space. |
| Js.TrimSlice | lib/utils.ts:28 | Stripping leading then trailing white space leaves a slice of the input with only white space outside it. |
| Js.Substring | lib/utils.ts:27-33 | Within bounds, `substring(start, end)` is the slice between them, with the arguments swapped when start exceeds end. Bounds that cover the string give the whole string. |
| Js.NatToString | components/compare/criteria-combobox.tsx:76 | At least one decimal digit, and no leading zero except for zero itself. |
| Js.NatToStringRoundTrip | components/compare/criteria-combobox.tsx:75-77 | Reading back the decimal digits of a count gives the count. |
| Records.HeadingNames | components/compare/data-comparator.tsx:135-144 | The heading is "Comparer" exactly when neither title is truthy. It is "Comparer A" or "Comparer B" when only one is. With both, it starts with "Comparer A", ends with B, and has " vs " between them. |
| Records.Heading | components/compare/data-comparator.tsx:135-144 | Every heading starts with "Comparer". |
| DataPicker.Pick | components/compare/data-combobox.tsx:68 | The new selection is null exactly when the clicked object is the selected one. Otherwise it is the clicked object. |
| DataPicker.ButtonText | components/compare/data-combobox.tsx:52 | The button shows the selected option's title, or the placeholder when nothing is selected. |
| DataPicker.ListOf | components/compare/data-combobox.tsx:62-94 | "No data found" exactly when there are no options. Otherwise there is one row per option, in order. |
| DataPicker.CheckedById | components/compare/data-combobox.tsx:84-89 | Row j is checked if and only if something is selected and option j has the selection's id. |
| DataPicker.AtMostOneChecked | components/compare/data-combobox.tsx:84-89 | With distinct ids, no two rows are checked. |
| DataPicker.SelectedIsChecked | components/compare/data-combobox.tsx:87 | The selected option's row is checked. |
| DataPicker.CheckedButNotCleared | components/compare/data-combobox.tsx:67-87 | Another object with the selected id is shown checked, yet clicking it replaces the selection. The check is by id, the clear by reference. |
| DataPicker.PickTwice | components/compare/data-combobox.tsx:68 | Clicking the same object twice ends with nothing selected, unless it was already selected. |
| DataPicker.DataCombobox.constructor | components/compare/data-combobox.tsx:39-40 | The picker starts closed with nothing selected. |
| DataPicker.DataCombobox.SetOpen | components/compare/data-combobox.tsx:44 | Opening or closing leaves the selection alone. |
| DataPicker.DataCombobox.OnSelect | components/compare/data-combobox.tsx:67-71 | The selection becomes `Pick(selected, option)`. The same value goes to the parent, and the popover closes. |
| AssurancePicker.Pick | components/compare/autocomplete.tsx:63 | The new selection is null exactly when the clicked object is the selected one. Otherwise it is the clicked object. |
| AssurancePicker.ButtonText | components/compare/autocomplete.tsx:48 | The button shows the placeholder when nothing is selected. Otherwise it shows the selected title, or nothing when that title is undefined. |
| AssurancePicker.ListOf | components/compare/autocomplete.tsx:58-78 | One row per option, in order, each with its image, title and check mark. |
| AssurancePicker.CheckedById | components/compare/autocomplete.tsx:74 | Row j is checked if and only if something is selected and option j has the selection's id. |
| AssurancePicker.CheckedButNotCleared | components/compare/autocomplete.tsx:62-74 | Another object with the selected id is shown checked, yet clicking it replaces the selection. |
| AssurancePicker.AssuranceCombobox.constructor | components/compare/autocomplete.tsx:35-36 | The picker starts closed with nothing selected. |
| AssurancePicker.AssuranceCombobox.SetOpen | components/compare/autocomplete.tsx:40 | Opening or closing leaves the selection alone. |
| AssurancePicker.AssuranceCombobox.OnSelect | components/compare/autocomplete.tsx:62-66 | The selection becomes `Pick(selected, option)`. The same value goes to the parent, and the popover closes. |
| CriteriaPicker.CriterionIds | components/compare/criteria-combobox.tsx:60 | The ids of the criteria, in criteria order. |
| CriteriaPicker.Toggled | components/compare/criteria-combobox.tsx:42-48 | An unselected id is appended at the end. A selected id is removed, which shortens the selection. |
| CriteriaPicker.WithoutShorter | components/compare/criteria-combobox.tsx:45 | Filtering out a selected id shortens the selection. |
| CriteriaPicker.SelectAllResult | components/compare/criteria-combobox.tsx:53-64 | The result is empty or every criterion id in order. It is empty exactly when the lengths match or there are no criteria. |
| CriteriaPicker.TriggerLabel | components/compare/criteria-combobox.tsx:75-77 | With a selection, exactly the decimal count of selected ids (no leading zero) followed by " selected". Otherwise the placeholder. |
| CriteriaPicker.RowsOf | components/compare/criteria-combobox.tsx:102-126 | The empty message exactly when there are no criteria. Otherwise there is one row per criterion with its label, highlighted iff its id is selected. |
| CriteriaPicker.WithoutMembers | components/compare/criteria-combobox.tsx:45 | The filter keeps exactly the ids other than the removed one. |
| CriteriaPicker.WithoutAbsent | components/compare/criteria-combobox.tsx:45 | Filtering out an id that is not selected changes nothing. |
| CriteriaPicker.WithoutCutsOut | components/compare/criteria-combobox.tsx:44-45 | Removing a selected id cuts it out where it stands and keeps the order of the rest. |
| CriteriaPicker.ToggledMembers | components/compare/criteria-combobox.tsx:42-48 | Toggling flips the membership of the toggled id and of no other id. |
| CriteriaPicker.ToggledDistinct | components/compare/criteria-combobox.tsx:42-48 | Toggling keeps the selection free of duplicates. |
| CriteriaPicker.ToggleTwiceRestores | components/compare/criteria-combobox.tsx:44-47 | Toggling an unselected id twice restores the selection exactly. |
| CriteriaPicker.ToggleTwiceMovesToEnd | components/compare/criteria-combobox.tsx:44-47 | Toggling a selected id twice moves it to the end instead of restoring the order. |
| CriteriaPicker.ToggleTwiceExample | components/compare/criteria-combobox.tsx:44-47 | With "a" and "b" selected, toggling "a" twice gives "b", "a". |
| CriteriaPicker.AllCheckedIffAllSelected | components/compare/criteria-combobox.tsx:54-57 | On a well-formed selection, the length test of "Sélectionner tout" holds exactly when every criterion is selected. |
| CriteriaPicker.LengthIsNotContents | components/compare/criteria-combobox.tsx:54-57 | Without well-formedness the length test misleads: a selection of "a" and a stale "x" counts as all, and "select all" clears it. |
| CriteriaPicker.ToggledWellFormed | components/compare/criteria-combobox.tsx:42-51 | Toggling a listed criterion keeps the selection well formed: distinct ids, all listed. |
| CriteriaPicker.SelectAllWellFormed | components/compare/criteria-combobox.tsx:53-64 | With distinct criterion ids, "select all" leaves a well-formed selection from any selection, stale ids included. |
| CriteriaPicker.SelectAllTwice | components/compare/criteria-combobox.tsx:53-64 | From a partial selection, "select all" selects every id in criteria order, and a second press clears it. |
| CriteriaPicker.CriteriaCombobox.constructor | components/compare/criteria-combobox.tsx:39-40 | The dropdown starts closed with an empty, well-formed selection. |
| CriteriaPicker.CriteriaCombobox.SetOpen | components/compare/criteria-combobox.tsx:67 | Opening or closing leaves the selection and the criteria alone. |
| CriteriaPicker.CriteriaCombobox.SetCriteria | components/compare/criteria-combobox.tsx:33-40 | A new `criteria` prop replaces the list and keeps the selection as it is, so ids no longer listed can remain selected. |
| CriteriaPicker.CriteriaCombobox.ToggleCriteria | components/compare/criteria-combobox.tsx:42-51 | The stored selection becomes the toggled one, and exactly that list goes to `onCriteriaChange`. Well-formedness is kept when the toggled criterion is listed. |
| CriteriaPicker.CriteriaCombobox.ToggleSelectAll | components/compare/criteria-combobox.tsx:53-64 | The selection is cleared when the lengths match, and set to every id otherwise. Exactly that list goes to `onCriteriaChange`. With distinct criterion ids the result is well formed, even after the criteria changed. |
| DataComparison.LoadedTitle | components/compare/data-comparator.tsx:52 | A loaded title is never empty: "No title available" replaces a falsy one. |
| DataComparison.LoadedFromPost | components/compare/data-comparator.tsx:50-56 | From a post, the loaded option has the post's id and its rendered title, or "No title available". It has the featured image or "", and the custom fields or none. |
| DataComparison.RenderAcfValue | components/compare/data-comparator.tsx:70-75 | A rendered value is never an array. |
| Js.ArrayJoin | components/compare/data-comparator.tsx:72 | Joining no elements gives "". Joining n elements holds at least n - 1 separators' worth of characters. |
| Js.Truthy | components/compare/data-comparator.tsx:74 | A value is falsy exactly when it is `undefined`, `null`, `false`, 0 or "". |
| DataComparison.RenderAcfValueCases | components/compare/data-comparator.tsx:70-75 | A truthy scalar is kept and a falsy one gives "N/A". An empty array gives "N/A", and any other array gives its elements joined with ", ". |
| DataComparison.RenderAcfValueBlank | components/compare/data-comparator.tsx:70-75 | A cell is blank exactly for a one-element array whose element prints as "". |
| DataComparison.RenderAcfValueExamples | components/compare/data-comparator.tsx:70-75 | ["red", "blue"] gives "red, blue". `undefined` and 0 give "N/A", and 7 stays 7. |
| DataComparison.AcfKeys | components/compare/data-comparator.tsx:79-82 | A key is in the union if and only if it is a key of either option's fields. |
| DataComparison.AcfRow | components/compare/data-comparator.tsx:116-121 | The feature label is as long as the key, neither cell is an array, and a side that lacks the key shows "N/A". |
| DataComparison.AcfKeysMembers | components/compare/data-comparator.tsx:79-82 | Every key of either option's fields appears exactly once among the rows, and no other key does. |
| DataComparison.AcfKeysOrder | components/compare/data-comparator.tsx:79-82 | The keys are the first option's keys in order, then the second's not already listed, in order. |
| DataComparison.AcfKeysExample | components/compare/data-comparator.tsx:79-82 | {color, size} and {size, weight} give the rows color, size, weight. |
| DataComparison.Table | components/compare/data-comparator.tsx:94-122 | The table has rows Image, Title and Description, then one row per key of the union in union order. Each key row holds the formatted key and both rendered values. |
| DataComparison.MissingKeyShowsNotAvailable | components/compare/data-comparator.tsx:116-121 | A key that one option lacks shows "N/A" on that side. |
| DataComparison.AcfRowCount | components/compare/data-comparator.tsx:79-122 | There are at least as many key rows as the first option has keys, and at most as many as both together. |
| DataComparison.LoadedHeading | components/compare/data-comparator.tsx:135-144 | Loaded titles are never empty, so with two loaded options the heading is "Comparer A vs B". |
| DataComparison.DataComparator.constructor | components/compare/data-comparator.tsx:42-45 | The comparator starts with no options, nothing selected and no table. |
| DataComparison.DataComparator.Load | components/compare/data-comparator.tsx:47-60 | One fresh option per fetched record, with the loader's defaults. The selections and the table flag are untouched. |
| DataComparison.DataComparator.PickFirst | components/compare/data-comparator.tsx:147-151 | `option1` becomes what the first picker emits, and nothing else in the comparator changes. |
| DataComparison.DataComparator.PickSecond | components/compare/data-comparator.tsx:154-158 | `option2` becomes what the second picker emits, and nothing else in the comparator changes. |
| DataComparison.DataComparator.HandleCompare | components/compare/data-comparator.tsx:62-68 | It alerts exactly when an option is missing. Otherwise the table is shown. `showComparison` is never set back to false. |
| DataComparison.DataComparator.Comparison | components/compare/data-comparator.tsx:77-131 | A table is rendered exactly when `showComparison` is set. It has the three fixed rows plus one row per key of the union. |
| AssuranceComparison.AssuranceFromPost | components/compare/assurance-comparator.tsx:28-33 | The loader reads a post exactly when its title, `_embedded` and content objects exist. Otherwise it throws the TypeError of the first missing one, in evaluation order: title, then `_embedded`, then content. A successful read holds the post's id, rendered title, featured image and rendered content. |
| AssuranceComparison.AssuranceAgreesWithFetchData | components/compare/assurance-comparator.tsx:28-33 | Where it succeeds, this loader reads the same id and image as `fetchData`, and the same title and content up to "" for a missing one. |
| AssuranceComparison.Table | components/compare/assurance-comparator.tsx:48-87 | There are always exactly three rows (Image, Title, Description) and no custom-field rows. An image cell is blank exactly when that slot is empty. |
| AssuranceComparison.AssuranceComparator.constructor | components/compare/assurance-comparator.tsx:19-22 | The comparator starts with no options, nothing selected and no table. |
| AssuranceComparison.AssuranceComparator.Load | components/compare/assurance-comparator.tsx:24-37 | It succeeds exactly when every post can be read, and then stores one fresh option per post. Otherwise it reports the first post's error and keeps the old options. |
| AssuranceComparison.AssuranceComparator.PickFirst | components/compare/assurance-comparator.tsx:103-107 | `assurance1` becomes what the first picker emits, and nothing else changes. |
| AssuranceComparison.AssuranceComparator.PickSecond | components/compare/assurance-comparator.tsx:110-114 | `assurance2` becomes what the second picker emits, and nothing else changes. |
| AssuranceComparison.AssuranceComparator.HandleCompare | components/compare/assurance-comparator.tsx:39-46 | It alerts exactly when an assurance is missing. Otherwise the table is shown. `showComparison` is never set back to false. |
| AssuranceComparison.AssuranceComparator.Comparison | components/compare/assurance-comparator.tsx:48-87 | A table is rendered exactly when `showComparison` is set. It has three rows, and the Description row holds the parsed content of each slot. |

## Left out

- The browser DOM (`DOMParser`, `textContent`, `getElementsByTagName`) in `parseText` is left out. The segmenter takes the body text and the per-`<br>` cut offsets as inputs. The flat-body model covers `<br>` elements that are direct children of `<body>`, not nested ones.
- The HTTP request, `res.json()`, the `X-WP-Total` header and the "Failed to fetch data" error of `fetchData` (network I/O) are left out. So is the `fjord` configuration. `DataComparator`'s parent passes it `fetchAssurances` from `lib/data` (app/page.tsx:13, 35), and `lib/data` is not part of this model. `DataComparison.DataComparator.Load` takes records already shaped like `fetchData`'s output (`Utils.DataOption`). Fetched posts are parameters of the loaders.
- The date sort of `fetchData` relies on JavaScript `Date` parsing and float arithmetic, and is left out.
- `cn` is a wrapper over clsx and tailwind-merge, and is left out.
- React rendering, the `cmdk` search filter, `useEffect` scheduling, `alert` and `console.log` are left out. The alert is the `alerted` result of `HandleCompare`.
- Js.ToUpper: maps only ASCII letters. `toUpperCase` on other characters (accented letters, "ß") is not modelled, so the label contracts describe ASCII-only case mapping.
- Js.Value: numbers are integers. Floating-point values and their string forms are not modelled.
- Strings are sequences of characters, not of UTF-16 code units, so `substring` offsets and `length` count characters.
- The `specialCases` lookup and `option?.acf[key]` read only own keys. Inherited properties such as `constructor` or `toString` are not modelled.
- The data loader's `data?.map` when `data` is undefined (the state becomes `undefined`, and the pickers then fail) is not modelled. `Load` takes a list of records.
- The insurance comparator's Description cell for an empty slot calls `parseText(undefined)`. The model records the cell's input (`None`) and does not model how `DOMParser` turns it into text.
- The unused props `title` (DataComparator) and `emptyMessage` (DataCombobox), and the `CommandEmpty` messages shown only by the search filter, are not modelled.
- Results are never invalidated when a selection changes after a compare. The source never resets `showComparison`, and the model keeps that behaviour.

## Findings

| source | as written | input that shows it | evidently intended | confidence | as-written member | corrected member |
|---|---|---|---|---|---|---|
| lib/utils.ts:27-29 | Each cut is `br.previousSibling.textContent.length`, the previous sibling's own length rather than its offset in the body text. | `A<br>B<br>C` (any a`<br>`b`<br>`c with a and b of equal length) gives "A", "BC". | "A", "B", "C": one line per text between `<br>`s. | not executed | Utils.ParseBodyMergesLines | Utils.ParseBodyCorrectedThreeLines |
| lib/utils.ts:27-29 | A `<br>` after a `<br>` has an empty previous sibling, so its cut is 0 and `substring` swaps its arguments. | `A<br><br>B` gives "A", "A", "AB". | "A", "B". | not executed | Utils.ParseBodyRepeatsLines | Utils.ParseBodyCorrectedDoubleBreak |
| lib/utils.ts:27 | A `<br>` with no previous sibling dereferences `null`. | `<br>A` throws a TypeError. | "A". | not executed | Utils.ParseBodyLeadingBreakThrows | Utils.ParseBodyCorrectedLeadingBreak |
