# Matrix-Website front end: card gradients, admin forms, feedback list, flip cards

This project models the small pieces of logic in the Matrix club website's
React front end and proves what they promise:

- **The card gradient picker** (`GradientPicker`, `GradientPresets`). A
  djb2-style hash of an entity key selects one of sixteen preset gradients.
  The preset is then rendered as a Tailwind class, as an inline CSS
  background, or as a fixed fallback. `hashToIndex` is a method with the
  source's `for` loop, proved against the function `Hash`. The table is a
  constant. The DOM probe for Tailwind is a boolean parameter.
- **The project form** (`ProjectFormModal`). The form state is a class whose
  reset effect and `handleSubmit` are methods. The comma-separated tag text is
  parsed with split, trim and drop-empty. The reset effect writes the tags back
  with `join(", ")`.
- **The event, team and gallery forms** (`EventFormModal`, `TeamFormModal`,
  `GalleryFormModal`, with the browser's `FormData` and file input in
  `FormParts`). Each has a required-field check and a reset-on-open effect. The
  team and gallery forms send a `FormData`, built by successive appends, in
  which the image is required only when adding.
- **The feedback list of the admin panel** (`AdminFeedbacks`). It keeps the
  entries whose name, email or message contains the filter text, ignoring
  case. It then sorts them newest first or by name.
- **The flip cards of the events section** (`Events`). One optional index says
  which card shows its back.

Keys to the hash are sequences of UTF-16 code units (`CodeUnit`, 0..0xFFFF),
which is what `charCodeAt` reads.

The hash follows the code, not the usual description of djb2. In JavaScript,
`(hash << 5) + hash + code` applies ToInt32 only to the shift: the shifted
value is wrapped to 32 bits, while the two additions are exact number
arithmetic. The accumulator is therefore never reduced, and `Math.abs` sees
the unreduced value. Classic 32-bit djb2, which reduces the accumulator after
every step, is a different function. The model proves
that the two agree modulo 2^32 (`HashAgreesWithHash32`) but not in the bucket
they choose. The key "bhhwoci" ends at -2319418487 and gets bucket 7
(orange-red), where 32-bit djb2 ends at 1975548809 and would give bucket 9
(`PickerDiffersFromHash32`).

The preset table is written as one named constant per entry. `Preset` builds
each class as `bg-gradient-to-br <colours>` and each CSS value as
`linear-gradient(135deg,<from>,<to>)`. These are the same strings as in the
source.

## Model

| member | source | states |
|---|---|---|
| GradientPresets.Preset | Frontend/src/styles/gradientPresets.ts:10-15 | An entry with both optional renderings present, the class starting `bg-gradient-to-br` and the CSS starting `linear-gradient(135deg,` |
| GradientPresets.GradientsCount | Frontend/src/styles/gradientPresets.ts:9-106 | The table has exactly 16 entries |
| GradientPresets.GradientsFullyRendered | Frontend/src/styles/gradientPresets.ts:9-106 | Every entry defines both `tw` and `css` with their diagonal prefixes, so the picker's fallback is unreachable with this table |
| GradientPresets.GradientsDistinctIds | Frontend/src/styles/gradientPresets.ts:10-104 | No two entries share an `id` |
| GradientPicker.ToInt32 | Frontend/src/styles/gradientPicker.ts:8 | ECMAScript ToInt32: the result lies in [-2^31, 2^31) and is congruent to the argument modulo 2^32 |
| GradientPicker.ShiftLeft5Wraps | Frontend/src/styles/gradientPicker.ts:8 | `h << 5` equals 32·h reduced to signed 32 bits, so only the shifted term wraps |
| GradientPicker.HashSnoc | Frontend/src/styles/gradientPicker.ts:7-8 | One more code unit runs one more loop step, `ToInt32(32·hash) + hash + c`, in left-to-right order |
| GradientPicker.Index | Frontend/src/styles/gradientPicker.ts:9 | `Math.abs(hash) % modulo` lies in [0, modulo) for every modulo > 0 |
| GradientPicker.HashToIndex | Frontend/src/styles/gradientPicker.ts:5-10 | The loop returns an index in [0, modulo) equal to `Index(str, modulo)`, the bucket of the hash of the whole key |
| GradientPicker.PickGradient | Frontend/src/styles/gradientPicker.ts:12-15 | The result is the table entry at the key's bucket modulo 16, and it has both renderings |
| GradientPicker.Render | Frontend/src/styles/gradientPicker.ts:27-32 | Exactly one of class name and style is set; the class is `g.tw` exactly when the flag is set and `tw` is truthy (present and non-empty); otherwise the style is `g.css` when that is truthy, else the literal fallback, so an empty string falls through like a missing one |
| GradientPicker.GradientClassOrStyle | Frontend/src/styles/gradientPicker.ts:17-33 | The picked preset does not depend on the flag: with Tailwind the result is `{className: tw}` and no style, without it `{style: css}` and no class, and never the fallback |
| GradientPicker.EmptyKeyPicksGreenLime | Frontend/src/styles/gradientPicker.ts:6-9 | The empty key hashes to 5381, lands in bucket 5 and picks "green-lime" |
| GradientPicker.AbcHash | Frontend/src/styles/gradientPicker.ts:6-8 | "abc" hashes to 193485963 |
| GradientPicker.AbcPicksSkyBlue | Frontend/src/styles/gradientPicker.ts:9-15 | "abc" falls in bucket 11 and picks "sky-blue" |
| GradientPicker.HashMagnitude | Frontend/src/styles/gradientPicker.ts:6-8 | Each step grows the accumulator's magnitude by at most 2^31 + 0xFFFF |
| GradientPicker.HashIsSafeInteger | Frontend/src/styles/gradientPicker.ts:6-8 | For keys of up to four million code units the accumulator stays below 2^53, so exact integer arithmetic matches the number arithmetic |
| GradientPicker.Hash32 | Frontend/src/styles/gradientPicker.ts:6-8 | Classic djb2 reduced to 32 bits after each step stays in the signed 32-bit range |
| GradientPicker.HashAgreesWithHash32 | Frontend/src/styles/gradientPicker.ts:6-8 | The unreduced accumulator, reduced once to 32 bits, equals 32-bit djb2 |
| GradientPicker.Index32 | Frontend/src/styles/gradientPicker.ts:9 | The bucket 32-bit djb2 would choose lies in [0, modulo) |
| GradientPicker.BhhwociHash | Frontend/src/styles/gradientPicker.ts:6-8 | "bhhwoci" hashes to -2319418487, outside the 32-bit range |
| GradientPicker.Hash32Snoc | Frontend/src/styles/gradientPicker.ts:6-8 | One more code unit runs one more step of 32-bit djb2 |
| GradientPicker.BhhwociHash32 | Frontend/src/styles/gradientPicker.ts:6-8 | 32-bit djb2 on "bhhwoci" ends at 1975548809 |
| GradientPicker.PickerDiffersFromHash32 | Frontend/src/styles/gradientPicker.ts:5-15 | On "bhhwoci" the picker chooses bucket 7 ("orange-red") where 32-bit djb2 would choose bucket 9 |
| ProjectFormModal.Split | Frontend/src/components/ProjectFormModal.tsx:46 | `split(",")` yields one piece more than there are commas, and no piece contains a comma |
| ProjectFormModal.JoinSplit | Frontend/src/components/ProjectFormModal.tsx:46 | Joining the pieces of a split with "," gives the text back |
| ProjectFormModal.SkipWhitespace | Frontend/src/components/ProjectFormModal.tsx:47 | The first position at or after `i` that is not whitespace, with only whitespace skipped |
| ProjectFormModal.BackOverWhitespace | Frontend/src/components/ProjectFormModal.tsx:47 | The end of the last non-whitespace character before `j`, with only whitespace skipped |
| ProjectFormModal.Trim | Frontend/src/components/ProjectFormModal.tsx:47 | `trim()` leaves no whitespace at either end and never lengthens the text |
| ProjectFormModal.TrimRemovesOnlyWhitespace | Frontend/src/components/ProjectFormModal.tsx:47 | The trimmed text is a contiguous piece of the input with only whitespace before and after it |
| ProjectFormModal.TrimInfix | Frontend/src/components/ProjectFormModal.tsx:47 | Trimming introduces no character, so a comma-free piece stays comma-free |
| ProjectFormModal.TrimTrimmed | Frontend/src/components/ProjectFormModal.tsx:47 | Trimming already trimmed text changes nothing |
| ProjectFormModal.TrimSpacedTag | Frontend/src/components/ProjectFormModal.tsx:47 | The blank that ", " leaves in front of a tag is trimmed away |
| ProjectFormModal.TrimAll | Frontend/src/components/ProjectFormModal.tsx:47 | `map(tag => tag.trim())` trims each piece in place and keeps the count |
| ProjectFormModal.DropEmpty | Frontend/src/components/ProjectFormModal.tsx:48 | `filter(Boolean)` keeps exactly the non-empty strings, in order, each as often as it occurs (the multiset of the input with the empty string removed) |
| ProjectFormModal.ParseTagsClean | Frontend/src/components/ProjectFormModal.tsx:45-48 | Every submitted tag is non-empty, trimmed and comma-free |
| ProjectFormModal.TrimmedPiecesClean | Frontend/src/components/ProjectFormModal.tsx:46-47 | Trimmed pieces of a split are trimmed and comma-free |
| ProjectFormModal.ParseTagsOrder | Frontend/src/components/ProjectFormModal.tsx:45-48 | The tags are the non-blank trimmed pieces in left-to-right order, every non-blank piece appears as often as it occurs (repeated tags are kept), and there are at most commas + 1 of them |
| ProjectFormModal.SplitCommaFree | Frontend/src/components/ProjectFormModal.tsx:46 | Text without a comma splits into itself alone |
| ProjectFormModal.SplitAfterComma | Frontend/src/components/ProjectFormModal.tsx:46 | Splitting `a + "," + rest` gives `a` followed by the pieces of `rest` |
| ProjectFormModal.Spaced | Frontend/src/components/ProjectFormModal.tsx:33 | Each tag after the first, preceded by the blank that ", " writes |
| ProjectFormModal.SplitJoined | Frontend/src/components/ProjectFormModal.tsx:46 | Splitting `tags.join(", ")` gives the first tag and then the other tags each with a leading blank |
| ProjectFormModal.TrimPieces | Frontend/src/components/ProjectFormModal.tsx:47 | Trimming those pieces gives the clean tags back |
| ProjectFormModal.DropEmptyKeepsNonEmpty | Frontend/src/components/ProjectFormModal.tsx:48 | Dropping empty strings from a list without any changes nothing |
| ProjectFormModal.ParseJoinRoundTrip | Frontend/src/components/ProjectFormModal.tsx:33-48 | Parsing `tags.join(", ")` gives the same list when every tag is non-empty, trimmed and comma-free |
| ProjectFormModal.Validate | Frontend/src/components/ProjectFormModal.tsx:41-49 | Rejected with "All fields are required." exactly when some raw field is empty; otherwise title, description and GitHub URL pass unchanged and the tags are parsed |
| ProjectFormModal.BlankTagsPassValidation | Frontend/src/components/ProjectFormModal.tsx:41-49 | The tag text " , " passes the check and submits an empty tag list |
| ProjectFormModal.ProjectForm.constructor | Frontend/src/components/ProjectFormModal.tsx:21-27 | The fields start from `initialData` (tags joined with ", ") or empty, with no error |
| ProjectFormModal.ProjectForm.Reset | Frontend/src/components/ProjectFormModal.tsx:29-37 | When open, every field is reloaded from `initialData` or cleared and the error is cleared; when closed nothing changes |
| ProjectFormModal.ProjectForm.HandleSubmit | Frontend/src/components/ProjectFormModal.tsx:39-50 | Submits the validated project, leaving the error as it was, exactly when validation passes; otherwise sets the required-fields error and submits nothing |
| ProjectFormModal.ReopenAndSubmit | Frontend/src/components/ProjectFormModal.tsx:29-49 | Opening the form on a complete project with clean tags and submitting it unchanged sends back the same project |
| EventFormModal.Validate | Frontend/src/components/EventFormModal.tsx:44-48 | Accepted exactly when all five fields are non-empty, passing them unchanged; rejected with "All fields are required." otherwise |
| EventFormModal.FreeTextDateAndTime | Frontend/src/components/EventFormModal.tsx:44 | Date and time are checked only for being non-empty, not for their format |
| EventFormModal.Heading | Frontend/src/components/EventFormModal.tsx:63 | "Edit Event" exactly when `initialData` is given, "Add Event" exactly when it is not |
| EventFormModal.SubmitLabel | Frontend/src/components/EventFormModal.tsx:123 | "Update Event" exactly when `initialData` is given, "Add Event" exactly when it is not |
| EventFormModal.EventForm.constructor | Frontend/src/components/EventFormModal.tsx:22-29 | The fields start from `initialData` or empty, with no error |
| EventFormModal.EventForm.Reset | Frontend/src/components/EventFormModal.tsx:31-40 | When open, all five fields are reloaded and the error is cleared; when closed nothing changes |
| EventFormModal.EventForm.HandleSubmit | Frontend/src/components/EventFormModal.tsx:42-49 | Submits exactly the five current values when all are non-empty, leaving the error as it was; otherwise sets the required-fields error |
| FormParts.FormData.constructor | Frontend/src/components/TeamFormModal.tsx:42 | A new FormData has no entries |
| FormParts.FormData.Append | Frontend/src/components/TeamFormModal.tsx:43-45 | `append` adds one entry at the end and keeps the others |
| FormParts.FileInput.constructor | Frontend/src/components/TeamFormModal.tsx:89-95 | A file input holding the given text value |
| TeamFormModal.Entries | Frontend/src/components/TeamFormModal.tsx:42-45 | The FormData holds name, then role, then an "image" entry exactly when a file was chosen |
| TeamFormModal.Validate | Frontend/src/components/TeamFormModal.tsx:38-45 | Accepted exactly when name and role are non-empty and either editing or a file is chosen; rejected with "All fields and image are required." otherwise |
| TeamFormModal.CurrentImagePreview | Frontend/src/components/TeamFormModal.tsx:96 | The current photo shows exactly when editing, the photo URL is non-empty and no new file is chosen; adding, an empty URL or a chosen file each hide it |
| TeamFormModal.ImageRequiredOnlyWhenAdding | Frontend/src/components/TeamFormModal.tsx:38-45 | Adding without a file is refused; editing without a file is accepted and sends no "image" entry |
| TeamFormModal.TeamForm.constructor | Frontend/src/components/TeamFormModal.tsx:20-24 | Name and role start from `initialData` or empty, with no file and no error |
| TeamFormModal.TeamForm.ChooseFile | Frontend/src/components/TeamFormModal.tsx:93 | The file input's change handler records the chosen file or none |
| TeamFormModal.TeamForm.Reset | Frontend/src/components/TeamFormModal.tsx:26-34 | When open, name and role are reloaded, file and error are cleared, and a mounted file input is emptied; when closed nothing changes |
| TeamFormModal.TeamForm.HandleSubmit | Frontend/src/components/TeamFormModal.tsx:36-47 | Returns a fresh FormData holding exactly the validated entries, leaving the error as it was, or sets the required error and sends nothing |
| GalleryFormModal.Entries | Frontend/src/components/GalleryFormModal.tsx:42-45 | The FormData holds title, then alt, then an "image" entry exactly when a file was chosen |
| GalleryFormModal.Validate | Frontend/src/components/GalleryFormModal.tsx:38-45 | Accepted exactly when title and alt are non-empty and either editing or a file is chosen; rejected with "All fields and image are required." otherwise |
| GalleryFormModal.CurrentImagePreview | Frontend/src/components/GalleryFormModal.tsx:96 | The current image shows exactly when editing, `src` is non-empty and no new file is chosen; adding, an empty `src` or a chosen file each hide it |
| GalleryFormModal.ImageRequiredOnlyWhenAdding | Frontend/src/components/GalleryFormModal.tsx:38-45 | Adding without a file is refused; editing without a file is accepted and sends no "image" entry |
| GalleryFormModal.GalleryForm.constructor | Frontend/src/components/GalleryFormModal.tsx:20-24 | Title and alt start from `initialData` or empty, with no file and no error |
| GalleryFormModal.GalleryForm.ChooseFile | Frontend/src/components/GalleryFormModal.tsx:93 | The file input's change handler records the chosen file or none |
| GalleryFormModal.GalleryForm.Reset | Frontend/src/components/GalleryFormModal.tsx:26-34 | When open, title and alt are reloaded, file and error are cleared, and a mounted file input is emptied; when closed nothing changes |
| GalleryFormModal.GalleryForm.HandleSubmit | Frontend/src/components/GalleryFormModal.tsx:36-47 | Returns a fresh FormData holding exactly the validated entries, leaving the error as it was, or sets the required error and sends nothing |
| AdminFeedbacks.Lower | Frontend/src/pages/AdminFeedbacks.tsx:40-42 | Lowercasing keeps the length |
| AdminFeedbacks.Filter | Frontend/src/pages/AdminFeedbacks.tsx:38-43 | An entry is kept exactly when the lowercased filter occurs in its lowercased name, email or message; the kept entries are in their original order, with none invented, and each matching entry as often as in the input |
| AdminFeedbacks.EmptyFilterKeepsAll | Frontend/src/pages/AdminFeedbacks.tsx:38-43 | The empty filter keeps every entry |
| AdminFeedbacks.FilterIgnoresCase | Frontend/src/pages/AdminFeedbacks.tsx:40-42 | Filter texts that lowercase alike keep the same entries |
| AdminFeedbacks.LocaleCompare | Frontend/src/pages/AdminFeedbacks.tsx:50 | The name comparison returns -1, 0 or 1 |
| AdminFeedbacks.LocaleCompareAntisymmetric | Frontend/src/pages/AdminFeedbacks.tsx:50 | Swapping the names flips the sign, and only equal names compare equal |
| AdminFeedbacks.LocaleCompareTransitive | Frontend/src/pages/AdminFeedbacks.tsx:50 | The name order is transitive |
| AdminFeedbacks.CompareTotal | Frontend/src/pages/AdminFeedbacks.tsx:44-52 | For either order, of two entries one may come before the other |
| AdminFeedbacks.CompareTransitive | Frontend/src/pages/AdminFeedbacks.tsx:44-52 | For either order, the comparator is transitive |
| AdminFeedbacks.Insert | Frontend/src/pages/AdminFeedbacks.tsx:44 | Inserting adds exactly the one entry |
| AdminFeedbacks.InsertSorted | Frontend/src/pages/AdminFeedbacks.tsx:44 | Inserting into a sorted list keeps it sorted |
| AdminFeedbacks.Sort | Frontend/src/pages/AdminFeedbacks.tsx:44-52 | The result is sorted under the comparator and a permutation of the input |
| AdminFeedbacks.SortedFiltered | Frontend/src/pages/AdminFeedbacks.tsx:37-52 | A permutation of the filtered entries, none invented and at most as many as in the state, holding exactly the matching ones, newest first by date or in name order |
| AdminFeedbacks.EmptyFilterShowsAll | Frontend/src/pages/AdminFeedbacks.tsx:37-52 | With an empty filter the list is a permutation of all feedbacks |
| AdminFeedbacks.FilterCaseInsensitive | Frontend/src/pages/AdminFeedbacks.tsx:40-42 | Lowercasing the filter text does not change the list |
| Events.Toggle | Frontend/src/components/Events.tsx:59 | Clicking the flipped card unflips it; clicking any other card, or any card when none is flipped, flips that card |
| Events.DoubleClickRestores | Frontend/src/components/Events.tsx:58-60 | From no card flipped, two clicks on the same card leave no card flipped |
| Events.RepeatedClicks | Frontend/src/components/Events.tsx:58-60 | Clicking one card n times leaves it flipped exactly when n is odd |
| Events.FlippedIsLastClicked | Frontend/src/components/Events.tsx:58-60 | After any clicks, either no card is flipped or the card clicked last is |
| Events.EventCards.constructor | Frontend/src/components/Events.tsx:5 | No card starts flipped |
| Events.EventCards.HandleCardClick | Frontend/src/components/Events.tsx:58-60 | The state becomes the toggle of the old state; the clicked card's flip is inverted, and every other card is unflipped |

## Left out

- Number arithmetic beyond 2^53: the accumulator is exact only while it stays below 2^53 (`HashIsSafeInteger`: keys of up to four million code units). Float rounding for longer keys is not modelled.
- GradientPicker.HashToIndex and GradientPicker.Index: require `modulo > 0`. A modulo of 0, or one that is not an integer, gives NaN or a fraction in JavaScript and is not modelled. Every caller uses the default, the table length 16.
- The Tailwind probe (`typeof window` and `document.querySelector`) is the `hasTailwind` parameter.
- Conversion of a JavaScript string to its code units is not modelled: keys are given as code units.
- AdminFeedbacks.Lower: `toLowerCase` is modelled on ASCII letters only. Other case mappings are not modelled.
- AdminFeedbacks.LocaleCompare: `localeCompare` is modelled as lexicographic order on code points. Locale collation is not modelled.
- AdminFeedbacks.Feedback: `createdAt` is the integer timestamp `new Date(createdAt).getTime()` returns. Date parsing and NaN timestamps are not modelled.
- AdminFeedbacks.Sort: the engine's sort algorithm is modelled as an insertion sort. The contracts state sortedness and permutation but not stability, so the relative order of ties is left open.
- The feedback list is computed from the state as a value. Fetching the feedbacks, the loading and error flags, and the selected-entry dialog are network and rendering glue.
- `onSubmit` and `onClose` are callbacks into code that is not part of this model. `onSubmit`'s argument is returned from `HandleSubmit` instead.
- Rendering is not modelled: markup, the modal's `open` guard on rendering, and labels other than the event form's heading and button.
- Only the text value of the file input is modelled. A chosen file is a name, without its bytes.
- ProjectFormModal.IsWhitespace: `trim` strips the fixed ECMAScript white-space and line-terminator set. Code points that later Unicode versions add to the space separators are not modelled.
