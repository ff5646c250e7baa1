# Our-journey timeline: a Dafny model of its memory collection and its edit dialog

The application keeps a personal timeline of dated "memories" (title, description,
optional photo) in the browser. This project models its two pieces of sequential logic:

* **The memory collection of the App component** (`App.tsx`). The collection is a
  `seq<Memory>`. The list transforms behind saving and deleting are pure functions:
  `Create` prepends, `Update` is the id-matching `map`, `Remove` is the `filter`. They
  live in module `Collection`, together with the lookup used to open the edit dialog and
  the start-up choice between stored data and the two seed records. The views derived
  from the collection are in module `Timeline`:
  * the copy sorted newest first, for display;
  * the copy sorted oldest first, whose first date is the "together since" date;
  * the rule that puts a year header before a card.

  The component's five state slots (`memories`, `isModalOpen`, `editingMemory`,
  `deleteId`, `loading`) are the fields of class `AppState.App`. Each handler is a method
  of that class.
* **The create/edit dialog** (`components/AddMemoryModal.tsx`): class `MemoryForm.Form`.
  It has the five fields `date`, `title`, `description`, `image` and `polishStatus`. Its
  methods are the open effect, the input handlers, the two halves of the polish handler,
  the status-reset timer and the submit handler.

Record shapes, calendar dates and the polish status are in module `Types` (`types.ts`).

A date is a valid `(year, month, day)` triple, `CalendarDate`: a four-digit year, a month
from 1 to 12, and a day that exists in that month. Dates are ordered lexicographically
(`NotAfter`). For valid ISO `YYYY-MM-DD` strings, this is the order of the `getTime()`
timestamps that the source's comparators subtract.

`Array.prototype.sort` is stable. It is modelled by a stable insertion sort, `Sort`.
`StableSortIsUnique` shows that any list that is sorted and keeps the order within each
date is this list. So every stable sort yields exactly what the model computes.

JavaScript truthiness is kept where the source relies on it:
* an empty stored string counts as no stored value;
* an empty pending delete id does nothing;
* an empty image string counts as no image;
* an empty title takes the default title;
* an empty description makes polish a no-op.

Two behaviours of the code that are easy to overlook are modelled as written:
* Update replaces every record that carries the edited id, not just one.
* Editing a record and submitting it drops the record's `tags`, because the submitted
  draft carries none. `EditThenSubmit` states this.

## Model

| member | source | states |
|---|---|---|
| `Types.NotAfter` | App.tsx:81 | The date comparison behind both comparators. An earlier year comes first, and a date is not after itself. `Types.NotAfterTotalOrder` proves it is a total order. |
| `Types.NotAfterTotalOrder` | App.tsx:81 | The date order used by both comparators is reflexive, total, antisymmetric and transitive. |
| `Types.WithId` | App.tsx:105 | `{ ...draft, id }` carries the given id and exactly the draft's other fields. |
| `Collection.Find` | App.tsx:93 | There is no result iff no record has the id. Otherwise the result is a record of the list with that id, at the first index that has it. |
| `Collection.Create` | App.tsx:109-113 | The new record comes first, with the new id, and the list grows by one. `Collection.CreateAddsOneRecord` states the rest. |
| `Collection.CreateAddsOneRecord` | App.tsx:108-113 | Create yields one more record, placed first, with the fresh id and the draft's fields. The old list follows unchanged, as ids and as a multiset. A fresh id keeps ids unique. |
| `Collection.Update` | App.tsx:102-106 | Same length. Each record with the edited id becomes the draft's fields under that id. Every other record stays as it was, in place. |
| `Collection.UpdateKeepsIds` | App.tsx:102-106 | Update keeps the sequence of ids, so it keeps ids unique. An id that no record has leaves the list unchanged. |
| `Collection.UnchangedEditIsNoop` | App.tsx:104-106 | With unique ids, saving a record's own fields under its id leaves the collection unchanged. |
| `Collection.Remove` | App.tsx:125 | No surviving record has the deleted id, and the list does not grow. `Collection.RemoveContents`, `Collection.RemoveAround` and `Collection.RemoveAt` state which records survive, and in what order. |
| `Collection.RemoveContents` | App.tsx:125 | Delete keeps no record with the pending id. Every other record keeps its multiplicity. |
| `Collection.RemoveAppend` | App.tsx:125 | Delete applies to each part of a list independently, so the survivors keep their relative order. |
| `Collection.RemoveAround` | App.tsx:125 | A record in the middle of a list survives iff its id differs from the deleted one. It stays between the survivors before it and those after it. |
| `Collection.RemoveMissingIsNoop` | App.tsx:123-127 | Deleting an id that no record has leaves the list unchanged. |
| `Collection.RemoveAt` | App.tsx:125 | With unique ids, deleting the id found at position k removes exactly position k: the result is `s[..k] + s[k+1..]`. |
| `Collection.RemoveKeepsUniqueIds` | App.tsx:125 | Delete keeps ids unique. |
| `Collection.Seeds` | App.tsx:16-31 | There are two seed records, listed oldest first. `Collection.SeedsWellFormed` states their ids. |
| `Collection.SeedsWellFormed` | App.tsx:16-31 | The seed list has ids "1" and "2", which are unique. |
| `Collection.Load` | App.tsx:48-62 | A parsed stored list is taken exactly. A missing value or a parse failure yields the seeds. The mount effect's own write of the seeds (App.tsx:55) happens only when the value was missing. After a parse failure the seeds still reach storage, through the persist-after-change effect, which is left out. |
| `Timeline.Insert` | App.tsx:132 | One insertion step of the stable sort adds exactly one record. `Timeline.InsertContents`, `Timeline.InsertSorted` and `Timeline.InsertWithDate` state where it goes. |
| `Timeline.InsertContents` | App.tsx:132 | Insertion adds the record to the multiset and nothing else. |
| `Timeline.Sort` | App.tsx:131-133 | The sort keeps the length. `Timeline.SortCorrect` proves that it orders by date, permutes, and is stable. |
| `Timeline.InsertSorted` | App.tsx:132 | Inserting into a sorted list keeps it sorted in the same direction. |
| `Timeline.InsertWithDate` | App.tsx:132 | Insertion puts the new record ahead of the records with its own date and leaves every other date's records in place. This is the stability step. |
| `Timeline.SortCorrect` | App.tsx:131-133 | The sorted copy is ordered by date in the comparator's direction. It is a permutation of the collection. Records with equal dates keep their collection order. |
| `Timeline.StableSortIsUnique` | App.tsx:132 | Two lists that are sorted the same way and agree on the order within every date are equal. |
| `Timeline.DisplayOrder` | App.tsx:131-133 | The display list has one card per record. `Timeline.DisplayOrderCharacterized` proves it is the unique newest-first stable arrangement. |
| `Timeline.DisplayOrderCharacterized` | App.tsx:131-133 | The display list is sorted newest first, is a permutation, and is stable. It is the only list with these three properties. |
| `Timeline.StartDate` | App.tsx:77-83 | An empty collection starts on the fallback date. `Timeline.StartDateIsEarliest` proves that otherwise it is the earliest date. |
| `Timeline.StartDateIsEarliest` | App.tsx:77-83 | On an empty collection, the start date is the fallback 2023-01-01. Otherwise it is a date that occurs in the collection and is on or before every record's date. |
| `Timeline.StartDateIsLastDisplayed` | App.tsx:77-83 | The start date is the date of the last card on the timeline. |
| `Timeline.ShowYear` | App.tsx:158 | The first card gets a year header. A card dated the same day as the previous card does not. `Timeline.HeaderYearsOfSorted` states what the rule yields on a sorted list. |
| `Timeline.HeaderYearsFrom` | App.tsx:151-158 | The cards from index i on get at most one header each. `Timeline.HeaderYearsFromSorted` states which years they are. |
| `Timeline.HeaderYears` | App.tsx:151-158 | There are at most as many headers as cards. A non-empty timeline opens with the first card's year. `Timeline.HeaderYearsOfSorted` and `Timeline.TimelineHeaders` state that each year gets exactly one. |
| `Timeline.HeaderYearsFromSorted` | App.tsx:155-158 | On a newest-first list, the headers after card i-1 have strictly decreasing years, all below card i-1's year. They cover exactly the later cards' years other than that one. |
| `Timeline.HeaderYearsOfSorted` | App.tsx:151-158 | On a newest-first list, the header years strictly decrease and are exactly the list's years. So each distinct year gets exactly one header. |
| `Timeline.TimelineHeaders` | App.tsx:151-158 | On the display list, there is one header per year of the collection, newest year first. |
| `AppState.App.constructor` | App.tsx:41-45 | The initial state: no memories, the dialog closed, nothing being edited, no pending delete, loading. |
| `AppState.App.LoadOnMount` | App.tsx:48-62 | The mount effect installs `Load`'s choice and reports whether it writes the seeds itself, which it does only for a missing value. After a parse failure the persist-after-change effect, which is left out, stores the seeds once loading ends. Loading ends. The seed list has unique ids. The dialog and delete state are untouched. |
| `AppState.App.OpenCreateModal` | App.tsx:86-89 | Clears the edit target and opens the dialog. The collection is unchanged. |
| `AppState.App.OpenEditModal` | App.tsx:92-98 | An unknown id changes no state. A known id opens the dialog on the first record with that id. |
| `AppState.App.SaveMemory` | App.tsx:101-117 | With an edit target, the collection becomes `Update` under the target's id. Without one, it becomes `Create` under the fresh id. Either way the dialog closes and the target is cleared. Unique ids stay unique when the new id is fresh. |
| `AppState.App.CloseModal` | App.tsx:199-202 | Closes the dialog and clears the edit target. |
| `AppState.App.RequestDeleteMemory` | App.tsx:119-121 | Records the pending id and changes nothing else. |
| `AppState.App.ConfirmDeleteMemory` | App.tsx:123-128 | A pending non-empty id removes exactly its records, and the pending id is cleared. No pending id, or an empty one, changes nothing. An unknown id leaves the collection unchanged. Unique ids stay unique. |
| `AppState.App.CancelDelete` | App.tsx:210 | Clears the pending id. |
| `AppState.App.StartDate` | App.tsx:77-83 | The "together since" date is `Timeline.StartDate` of the collection. `Timeline.StartDateIsEarliest` proves it is the fallback or the earliest date of the collection. |
| `AppState.App.SortedMemories` | App.tsx:131-133 | The timeline list is `Timeline.DisplayOrder` of the collection. `Timeline.DisplayOrderCharacterized` proves it is newest first, a permutation of the collection, and stable. |
| `MemoryForm.NonEmpty` | components/AddMemoryModal.tsx:28 | An empty string counts as absent: the result is present iff the value is present and non-empty, and then it is that value. |
| `MemoryForm.Form.constructor` | components/AddMemoryModal.tsx:14-18 | The initial fields: today's date, empty title and description, no image, idle. |
| `MemoryForm.Form.OnOpen` | components/AddMemoryModal.tsx:22-38 | While closed, nothing changes. On open with a record, it copies the record's date, title and description, and its image URL unless that is absent or empty. On open without one, it sets today's date and empty fields with no image. Every open sets the status to idle. |
| `MemoryForm.Form.EditDate` | components/AddMemoryModal.tsx:103 | Sets the date and nothing else. |
| `MemoryForm.Form.EditTitle` | components/AddMemoryModal.tsx:145 | Sets the title and nothing else. |
| `MemoryForm.Form.EditDescription` | components/AddMemoryModal.tsx:169 | Sets the description and nothing else. |
| `MemoryForm.Form.StageImage` | components/AddMemoryModal.tsx:46-48 | Stages the image that was read and changes nothing else. |
| `MemoryForm.Form.StartPolish` | components/AddMemoryModal.tsx:53-61 | An empty description changes nothing. Otherwise the status becomes loading, and the request captures the description and whether the title is empty. |
| `MemoryForm.Form.FinishPolish` | components/AddMemoryModal.tsx:63-66 | The description becomes the polished text. The title becomes the suggestion only if it was empty when polishing started. The status becomes success. The date and image are untouched. |
| `MemoryForm.Form.Polish` | components/AddMemoryModal.tsx:53-68 | An empty description changes no field and no status. Otherwise the description is replaced. A non-empty title stays exactly as it was, and an empty one becomes the suggestion. The status ends at success. |
| `MemoryForm.Form.PolishStatusTick` | components/AddMemoryModal.tsx:67 | The timer returns the status to idle and changes no field. |
| `MemoryForm.Form.Submit` | components/AddMemoryModal.tsx:70-79 | The draft's title is "A Special Day" iff the title field is empty, and the field's value otherwise; it is never empty. Date and description are copied verbatim. No image is carried when none is staged or the staged one is empty. The draft has no id and no tags. The form is not changed. |
| `MemoryForm.EditThenSubmit` | components/AddMemoryModal.tsx:22-79 | Opening on a record and submitting it untouched returns the record's fields. The exceptions: an empty title is defaulted, an empty image URL is dropped, and tags are lost. A record without tags, with a title and without an empty image URL comes back unchanged. |
| `MemoryForm.CreatePolishSubmit` | components/AddMemoryModal.tsx:53-77 | A new entry with a description and no title, once polished and submitted, carries the polished text. Its title is the suggestion, or the default when the suggestion is empty. |

## Left out

- Browser storage: the `localStorage` read and write and JSON (de)serialisation (App.tsx:50-55, 65-72) are browser I/O. Loading is a function of an abstract stored value: missing, parsed list, or parse failure. The persist-after-change effect (App.tsx:65-73) is not modelled, nor are write failures. That effect stores the whole collection once loading has ended, so after a parse failure it writes the seeds too.
- A stored text that parses to something other than a list of memories is not modelled. A parsed value is taken to be a list of well-formed records with valid dates.
- `generateId` (App.tsx:33-38) draws on randomness and the clock. The new id is a parameter of `SaveMemory`. Freshness is not required; the contract says ids stay unique when it holds.
- services/geminiService.ts is not part of this model. It is an HTTP wrapper with a pass-through fallback. Its two answers enter the model only as parameters of `FinishPolish` and `Polish`.
- The concurrency of the two requests (`Promise.all`) is not modelled. Polishing is split into a start step and a finish step, and the finish step takes both answers together. The two-second reset timer is the explicit `PolishStatusTick` step. Cancelling a timer or a request is not modelled; neither does the source cancel them.
- The `Error` polish status exists in the type, but no handler sets it, so no method produces it.
- The days-together counter (components/Hero.tsx:10-15) reads the wall clock and uses floating-point division. It is not modelled.
- Image reading through `FileReader` (components/AddMemoryModal.tsx:42-51) is asynchronous file I/O. Only the callback that stages the result is modelled (`StageImage`).
- Rendering is not modelled: all JSX, components/MemoryCard.tsx (including its alternating layout), components/YearSeparator.tsx and components/ConfirmDeleteModal.tsx. That dialog's confirm button runs `ConfirmDeleteMemory` and then `CancelDelete`.
- The browser's form validation (`required` on the date and description inputs) is not modelled. Neither is a cleared date input.
- Time zones are not modelled. The year of a header is the YYYY component of the date. The source parses the date as UTC but reads the year in local time, so west of UTC a 1 January date shows under the previous year.
- Invalid date strings are not modelled. Every date is a valid calendar date. On an invalid one, the source's comparator returns NaN and the engine decides the order.
- The sort algorithm of the JavaScript engine is not modelled. `Sort` is an insertion sort, and `StableSortIsUnique` shows that any stable sort gives the same result.
