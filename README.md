# MediXtract application bookkeeping, in Dafny

This project models the bookkeeping inside the `MediXtractApp` class of the
MediXtract prototype (`scripts.js`). That bookkeeping covers:

- **Stages.** The list of completed workflow stages and the sign-out reset.
- **Folder selection.** The selected folder is split into JSON schema files and
  medical documents by file name. The selection stops when it is empty, has no
  document, or has no schema.
- **Schema categorisation.** The loaded field schema is sorted into three
  review sections by each field's `group_id`. The section sizes and the total
  are derived from that.
- **Field helpers.** The keywords the review cards read from a field's first
  `anyOf` alternative (`getFieldType`, `getFieldOptions`, `getFieldMin`,
  `getFieldMax`).
- **Acceptance flags.** Accepting, accepting all and editing set a flag per
  field. The section counters and the delivery notification are derived from
  those flags.
- **Patient table.** The filter and the keyed sort, and the status and role
  labels.
- **Display name.** The name built from a login e-mail address.
- **Processing panel.** The class each stage of the panel gets when the
  processing simulation reports a stage.

The modules follow that structure:

- `Text`: the string primitives.
- `Seqs`: filtering a list.
- `Files`, `Schema`, `Patients`, `Users` and `Processing`: the pure helpers and
  their properties.
- `Review`: the completion predicates.
- `App`: the class `MediXtractApp`. Its fields are the ones the handlers update
  in place, and its methods carry the loops of `handleFolderSelection`,
  `categorizeFields`, `renderFields` and `handleAcceptAll`.

The class invariant `Valid` says two things:

- the completed stages form a set;
- the sections always hold the categorisation of the loaded schema.

How the model represents the page:

- **Cards.** The review screen's cards are the keys of the three section maps.
  A card is accepted exactly when its flag in `fieldAcceptanceState` is set.
  Rendering the cards (`RenderFields`) marks each of them pending, and the
  accept and edit handlers change the card's CSS class and the flag together.
- **JSON objects.** A parsed JSON object becomes a list of (name, value)
  entries with distinct names.
- **Strings.** Strings are sequences of characters.

## Model

| member | source | states |
|---|---|---|
| Text.Includes | scripts.js:328 | `includes` finds the id filter exactly when the filter occurs in the id at some index |
| Text.TrimEmptyIffBlank | scripts.js:1785 | `trim()` yields the empty string exactly when the value is empty or consists only of whitespace |
| Files.JsonIsNotMedical | scripts.js:521-526 | a name ending in `.json`, in any case, never ends in a medical extension, so no file is both |
| Files.MedicalDocumentExtension | scripts.js:664-666 | the extension shown for a medical document is one of pdf, doc, docx, txt, rtf |
| Files.JsonFileExtension | scripts.js:664-666 | the extension of a JSON schema file is `json` |
| Files.PartitionSpec | scripts.js:518-527 | both lists are in-order sub-lists of the selection; the JSON list holds every JSON file as often as it occurs; the document list holds every non-JSON medical document; neither holds anything else |
| Files.PartitionDisjoint | scripts.js:521-526 | no file is in both lists |
| Files.PartitionKeepsDocuments | scripts.js:553-557 | a medical document is in the document list exactly when it is in the selection |
| Files.PartitionSize | scripts.js:521-527 | the two lists together are no longer than the selection |
| Schema.GetFieldType | scripts.js:1255-1289 | select exactly when the first `anyOf` alternative has an `enum`; date exactly when it has no `enum` and the `date` format; number exactly when it has neither and a `number` or `integer` type; text otherwise. A select offers the `enum` list, any other field the `items.enum` list or nothing; the bounds are the alternative's `minimum` and `maximum`, and absent without one |
| Schema.BucketOf | scripts.js:997-1007 | manual input exactly for `group_4`; double check exactly for `group_2` and `group_5`; high confidence for every other value |
| Schema.CategorizePlacesEachField | scripts.js:978-1008 | a name is in a section exactly when the schema has a field of that name whose `group_id` selects that section, and it is stored with that field's definition |
| Schema.CategorizeIsPartition | scripts.js:989-1008 | the three sections are pairwise disjoint and together hold exactly the field names of `properties`, or of the document when it has no `properties` |
| Schema.TotalIsFieldCount | scripts.js:1428-1431 | the sum of the three section sizes is the number of fields in the schema |
| Patients.FilterPatientsSpec | scripts.js:327-333 | the filtered list is an in-order sub-list and keeps each record, as often as it occurs, exactly when all three conditions hold: its lower-cased id contains the lower-cased id filter; its hospital key equals the hospital filter, unless that filter is empty; its status equals the status filter, unless that filter is empty |
| Patients.EmptyFiltersKeepAll | scripts.js:327-333 | with every filter empty, all records are returned in their order |
| Patients.SortPatientsSpec | scripts.js:342-357 | the result is a permutation of the input, sorted by the selected key: date newest first; id, status or hospital ascending |
| Patients.SortPatientsStable | scripts.js:342-357 | records the comparator ranks equal come out in the order they went in |
| Patients.SortUnknownKeepsOrder | scripts.js:355-356 | an unknown sort key returns the copy in the original order |
| Patients.DatabaseViewSpec | scripts.js:321-339 | the rendered table holds exactly the matching records with their multiplicities, in the selected order; with empty filters it holds every record |
| Patients.FormatStatusCollision | scripts.js:410-418 | two statuses are shown with the same text exactly when they are equal or one is unknown and spells the other's label, so the known statuses have distinct labels |
| Patients.FormatStatusIdempotent | scripts.js:410-418 | formatting a status twice gives the same text as formatting it once |
| Users.FormatRoleCollision | scripts.js:430-438 | two roles are shown with the same text exactly when they are equal or one is unknown and spells the other's label, so the known roles have distinct labels |
| Users.FormatRoleIdempotent | scripts.js:430-438 | formatting a role twice gives the same text as formatting it once |
| Users.ExtractNameFromEmailSpec | scripts.js:440-446 | the name is "Dr. " followed by the part of the address before its first '@', with '.', '_' and '-' turned into spaces, each word's first letter upper case and every other letter lower case |
| Review.SectionCounter | scripts.js:1911-1930 | the counter shows the number of accepted cards of the section's card count, and is complete exactly when the section has a card and every card in it is accepted |
| Review.DeliveryAvailable | scripts.js:1959-1973 | the delivery notification is shown exactly when there is at least one card and every card is accepted |
| Review.DeliveryIffSectionsComplete | scripts.js:1911-1973 | delivery is available exactly when there is a card and every section is either empty or shows a complete counter |
| Review.EditWithdrawsDelivery | scripts.js:1850-1855 | once a card is edited, neither delivery nor that card's section counter is complete |
| Review.AcceptLastCard | scripts.js:1797-1838 | accepting the only pending card makes delivery available |
| Processing.StageClassOf | scripts.js:941-957 | a stage is completed exactly when it lies before the reported stage, or is the reported stage reported `completed`; it is active exactly when it is the reported stage reported `active` |
| Processing.StageCounts | scripts.js:941-957 | after an update, the completed stages are those before the reported one, plus that one when it is reported completed; at most one stage is active |
| Processing.CompletedIsPrefix | scripts.js:947-949 | the completed stages form a prefix of the panel |
| Processing.CompletedOnlyGrows | scripts.js:818-853 | along the simulation's updates of the panel (i active, i completed, i+1 active), a stage once completed stays completed; after (i completed) exactly the stages up to i are completed |
| App.WithStageSpec | scripts.js:202-206 | after `completeStage` the stage is listed exactly once, nothing listed before is removed or reordered, and repeating the call changes nothing |
| App.AcceptEachIsAcceptAllResult | scripts.js:1899-1909 | running the accept handler on the listed cards in order sets the flag of exactly the cards that may be saved, and leaves every other flag as it was |
| App.PendingBlocksDelivery | scripts.js:1107-1116 | once every rendered card is marked pending, no card is accepted and delivery is not available |
| App.AcceptAllCompletesSection | scripts.js:1899-1909 | accept-all on the high-confidence or double-check section, listing its cards that are still pending, makes that section's counter complete, whatever was accepted by hand before |
| App.MediXtractApp.constructor | scripts.js:3-36 | the initial state: stage 1, nothing completed, no files, no schema, empty sections, no flags, the default user |
| App.MediXtractApp.CompleteStage | scripts.js:202-206 | appends the stage only when it is not listed yet, keeping the list free of duplicates |
| App.MediXtractApp.HandleLogin | scripts.js:224-267 | a login with an empty e-mail address, password or role is refused and changes nothing; otherwise the user is stored with the display name built from the address and the role's label, the login stage is completed and the user portal entered |
| App.MediXtractApp.HandleSignOut | scripts.js:492-505 | back to stage 1 with no completed stage and the default user; nothing else changes |
| App.MediXtractApp.ResetForNewPatient | scripts.js:743-765 | no documents, no JSON files, no schema and empty sections, the delivery notification hidden, the acceptance flags untouched |
| App.MediXtractApp.HandleFolderSelection | scripts.js:508-545 | an empty selection changes nothing; otherwise the lists are the JSON files and the medical documents of the selection, and the outcome is no documents, no schema, or the first JSON file, checked in that order |
| App.MediXtractApp.LoadSchema | scripts.js:562-565 | stores the parsed schema and leaves the sections holding its categorisation |
| App.MediXtractApp.CategorizeFields | scripts.js:978-1008 | the loop leaves the sections equal to the categorisation of the schema's fields |
| App.MediXtractApp.UpdateFieldCounts | scripts.js:1427-1466 | the three counts are the section sizes; the total is their sum, which is the number of schema fields; the summary is shown only for a positive total; the delivery notification is then derived from the flags by the delivery rule |
| App.MediXtractApp.HandleFieldAccept | scripts.js:1775-1839 | a manual-input card whose value is empty or whitespace only is refused and nothing changes; otherwise only that card's flag is set, and the notification follows the delivery rule |
| App.MediXtractApp.HandleAcceptAll | scripts.js:1899-1909 | the flags are those of the accept handler run on each listed card in page order; once any card was saved the notification follows the delivery rule, and otherwise it is unchanged |
| App.MediXtractApp.RenderFields | scripts.js:1013-1116 | every card of the three sections gets a pending flag and every other flag is kept, so no card is accepted and delivery is not available |
| App.MediXtractApp.StartProcessing | scripts.js:713-723 | the document stage is completed and the results stage entered; the delivery notification is reset and every acceptance flag dropped |
| App.MediXtractApp.FinishProcessing | scripts.js:880-885 | the processing stage is completed |
| App.MediXtractApp.CloseDeliveryNotification | scripts.js:155-157 | the close button hides the delivery notification |
| App.MediXtractApp.FinishDelivery | scripts.js:2011-2019 | after a delivery the notification is hidden, the user portal is shown and every acceptance flag is dropped |
| App.MediXtractApp.HandleFieldEdit | scripts.js:1841-1897 | only that card's flag is cleared, and the delivery notification is hidden |

## Left out

- All DOM output is left out: rendering, card HTML, notifications, popups, the PDF panel, `showStage` and `goToStage`.
  - The class keeps `deliveryVisible` in place of the notification element.
  - A missing page element, which makes some handlers return early, is not modelled.
- Timers and asynchronous pacing are left out: `handleLogin`, `startProcessing`, `runProcessingSimulation`, `animateProgress`, `delay` and `handleDelivery` wait for timers between their steps.
  - Their updates of the class's fields are modelled as methods that make them at once: `HandleLogin`, `StartProcessing`, `FinishProcessing` and `FinishDelivery`.
  - Of the simulation itself, only the stage-class rule it applies is modelled.
  - The order in which timers of different handlers interleave is not modelled.
- `loadJsonData` with its sample-data fallback is not modelled: it loads a fixture. Of `resetForNewPatient`, the clearing of page containers and of the folder input is left out.
- Schema.FieldsOf: a `properties` value that is present but not an object cannot be expressed; the model reads it as absent and categorises the members of the document.
  - For `true` or a non-zero number the source finds no fields, since `Object.keys` of them is empty.
  - For a non-empty string the source finds one field per character index (`"0"`, `"1"`, …), each without a `group_id`, so each goes to the high-confidence section.
  - For a non-empty array it finds one field per index.
- Reading the file and `JSON.parse` are left out: `FileReader` is browser I/O. `LoadSchema` takes the already parsed schema, and the read and parse errors are not modelled.
- MediXtractApp.LoadSchema: a schema member whose value is `null` cannot be expressed, since every member is read as a field.
  - In the source, `field.group_id` then throws in the middle of `categorizeFields`, after `jsonData` is stored and the sections are partly filled.
  - The sections then differ from the categorisation of the stored schema, which the class invariant `Valid` rules out in the model.
- `MediXtractApp.HandleFolderSelection`: returns the file to load rather than loading it. The folder name shown afterwards comes from `webkitRelativePath`, which is not modelled.
- MediXtractApp.UpdateFieldCounts: derives the delivery notification at once. The source schedules the counters, the accept-all buttons and the delivery button 100 ms later, and the section counters and the accept-all buttons are not stored state here.
- `formatFileSize`, the progress percentages and the summary percentages of `updateFieldCounts` are left out: they are floating-point arithmetic. `MediXtractApp.UpdateFieldCounts` states only when the summary is shown.
- `getRealisticProcessingMessage` and the sample values are left out: they use `Math.random`.
- Regular-expression formatting is left out: `formatFieldName`, and the label parsing of enum descriptions.
- Text.ToLower: maps only the ASCII letters. `LowerChar` and `UpperChar` leave every other character unchanged, which differs from JavaScript for non-ASCII letters.
- Patients.SortPatients: has these limits.
  - `localeCompare` is modelled as lexicographic order on Unicode code points, and the date subtraction as lexicographic order on `YYYY-MM-DD` strings.
  - An unparsable date is not modelled.
  - The engine's sort is modelled as a stable insertion sort.
- Patients.FormatStatus: does not model lookups that reach inherited object members (a status such as `constructor`).
- Users.FormatRole: does not model lookups that reach inherited object members (a role such as `constructor`).
- Schema.GetFieldType: JSON values are reduced to the keywords the helpers read.
  - `minimum` and `maximum` are integers.
  - A keyword of an unexpected JSON kind reads as absent.
  - An absent `anyOf` reads the same as an empty one.
  - `getFieldOptions`, `getFieldMin` and `getFieldMax` are modelled by `GetFieldOptions`, `GetFieldMin` and `GetFieldMax`, whose properties are stated in `GetFieldType`'s contract.
- App.MediXtractApp.HandleFieldAccept: takes the card's section from the categorised sections rather than from the card's `data-category` attribute. The two agree for cards rendered from the current schema.
- App.MediXtractApp.HandleFieldAccept: the listener that turns typing into an already accepted manual input into an edit is not modelled.
- App.MediXtractApp.HandleAcceptAll: takes the section's enabled cards as a list in page order instead of querying the page.
