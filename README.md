# Photo list component — Dafny model

This project models `PhotoListComponent`, the one stateful part of a small Angular
application that lists, creates, edits and deletes photo records against a public demo
REST endpoint. The component keeps the displayed list `photos` and two drafts:
`newPhoto`, bound to the add row of the table, and `editingPhoto`, bound to the edit
modal. It also keeps the modal state in `showModal` and `currentEditId`.

- `photos.dfy`, module `Photos`: the `Photo` record (`id` is optional), the reply of an HTTP
  request (`Ok(body)` for the `next` callback, `Failed` for the `error` callback), JavaScript
  `trim` over the ECMAScript whitespace and line-terminator code points, the completeness
  check on a draft, and the record a create puts in the list.
- `photo_list_ops.dfy`, module `PhotoListOps`: the list operations the component uses. These are
  the 20-record truncation of a fetch, `findIndex` by id, the slot write of an edit with a
  recursive reference definition, and the `filter` of a delete. The module also holds the
  lemmas about these operations.
- `photo_list.dfy`, module `PhotoList`: the class `PhotoListComponent`. Its fields are the
  component's fields. Its methods update them the way the component's methods and their
  success callbacks do. Each method states the whole new state, and the `modifies` frame
  lists the only fields it may touch.

Each HTTP request and its callback are one atomic method, and the server's reply is a
parameter of that method. The `confirm` dialog of a delete is a boolean parameter. The
`Math.random()` fallback id of a create is a parameter bounded to [0, 10000). The template's
form bindings write `newPhoto` and `editingPhoto` directly; the class fields are public for
this reason.

The component keeps a single `photos` list. It has no separate lists for fetched and for
locally created records, no merge of such lists and no refresh that would discard local
records, so the model has none either.

`openEditModal` stores `photo.id!` in `currentEditId`. The `!` only silences the type checker,
so an opened record without an id leaves `currentEditId` undefined, and the edit's
`findIndex` with `===` then matches the first record that has no id. The model therefore
keeps `currentEditId` as an optional number. `closeModal` sets it to `Some(0)`.

## Model

| member | source | states |
|---|---|---|
| `PhotoList.PhotoListComponent.constructor` | src/app/components/photo-list/photo-list.component.ts:16-35 | The component starts with an empty list, both drafts blank (album 0, empty strings, no id), the modal hidden and the edit id 0. |
| `PhotoList.PhotoListComponent.GetPhotos` | src/app/components/photo-list/photo-list.component.ts:47-57 | After a successful fetch, `photos` is the first min(20, length) records of the response in order. A failed fetch changes nothing. No other field is touched. |
| `PhotoListOps.FirstShown` | src/app/components/photo-list/photo-list.component.ts:51 | `slice(0, 20)` has at most 20 records and exactly min(20, length) of them, and they are the response's leading records. |
| `PhotoList.PhotoListComponent.AddPhoto` | src/app/components/photo-list/photo-list.component.ts:60-96 | A draft is sent exactly when it is complete. An incomplete draft or a failed request leaves `photos` and `newPhoto` unchanged. On success the created record is put in front of the old list, so the length grows by one and the old list is the unchanged tail. The draft is then reset to the blank form. |
| `Photos.Created` | src/app/components/photo-list/photo-list.component.ts:68-71 | The created record carries the draft's album id, title, url and thumbnail url, and it always has an id. That id is the response's id when that is truthy (present and non-zero), and otherwise a fallback in [0, 10000). |
| `Photos.IsWhitespace` | src/app/components/photo-list/photo-list.component.ts:62 | The characters `trim()` removes are the ECMAScript WhiteSpace and LineTerminator code points (TAB, LF, VT, FF, CR, SP, NBSP, U+1680, U+2000-U+200A, LS, PS, U+202F, U+205F, U+3000, ZWNBSP). No printable ASCII character is among them. |
| `Photos.TrimStart` | src/app/components/photo-list/photo-list.component.ts:62 | The result is a suffix of the input. Everything cut off is whitespace, and the result does not start with whitespace. |
| `Photos.TrimEnd` | src/app/components/photo-list/photo-list.component.ts:62 | The result is a prefix of the input. Everything cut off is whitespace, and the result does not end with whitespace. |
| `Photos.Trim` | src/app/components/photo-list/photo-list.component.ts:62-64 | `trim()` is no longer than its input, and a non-empty result starts and ends with a non-whitespace character. |
| `Photos.TrimIsInfix` | src/app/components/photo-list/photo-list.component.ts:62-64 | `trim()` returns the middle of the string left after cutting a whitespace-only prefix and a whitespace-only suffix. |
| `Photos.TrimNonEmptyIff` | src/app/components/photo-list/photo-list.component.ts:62-64 | `s.trim()` is truthy (non-empty) if and only if `s` contains a non-whitespace character. |
| `Photos.IsComplete` | src/app/components/photo-list/photo-list.component.ts:61-64 | The check before a create (lines 61-64) and before an update (lines 118-121): the album id is positive and the trimmed title, url and thumbnail url are non-empty. A complete draft therefore has non-empty strings. |
| `Photos.IsCompleteIff` | src/app/components/photo-list/photo-list.component.ts:61-64 | The create and edit check passes if and only if the album id is positive and the title, url and thumbnail url each contain a non-whitespace character. |
| `Photos.EmptyDraftIncomplete` | src/app/components/photo-list/photo-list.component.ts:80-85 | The blank draft written after a successful create (album 0, empty strings) fails the completeness check. |
| `PhotoList.PhotoListComponent.OpenEditModal` | src/app/components/photo-list/photo-list.component.ts:99-109 | All five fields of the chosen record are copied into `editingPhoto`. `currentEditId` becomes its id and the modal is shown. `photos` and `newPhoto` are not touched. |
| `PhotoList.PhotoListComponent.CloseModal` | src/app/components/photo-list/photo-list.component.ts:111-114 | The modal is hidden and the edit id is reset to 0. Nothing else is touched. |
| `PhotoList.PhotoListComponent.ConfirmEdit` | src/app/components/photo-list/photo-list.component.ts:117-139 | The edit draft is sent exactly when it passes the same check as a create. An incomplete draft or a failed request leaves `photos` and the modal state unchanged. On success only the first record whose id equals the edit id is replaced by the response, and the length and every other position are kept. With no match the list is unchanged. The modal closes in both cases. |
| `PhotoListOps.FirstIndexOf` | src/app/components/photo-list/photo-list.component.ts:125 | `findIndex` returns -1 if and only if no record has the id. Otherwise it returns an index whose record has the id, and no earlier record has it. |
| `PhotoListOps.ReplaceAtFirstIndex` | src/app/components/photo-list/photo-list.component.ts:125-128 | Writing the response into the slot found by `findIndex` equals the recursive reference edit. That edit replaces the first match and keeps everything else, or leaves a list without a match as it is. |
| `PhotoListOps.ReplaceFirstTwice` | src/app/components/photo-list/photo-list.component.ts:99-129 | Two edits of one record, each confirmed after opening that record's modal, where the first response keeps the record's id: the list ends as the second edit alone would leave the original. Two updates confirmed from a single opening are not covered, because the first callback's `closeModal` resets the edit id to 0. |
| `PhotoList.PhotoListComponent.DeletePhoto` | src/app/components/photo-list/photo-list.component.ts:142-154 | If the user declines or the request fails, nothing changes. On success the list never grows and no record with that id remains. A record is kept if and only if it was there and has another id, and the survivors keep their relative order. |
| `PhotoListOps.Without` | src/app/components/photo-list/photo-list.component.ts:146 | `filter` never lengthens the list. |
| `PhotoListOps.WithoutRemovesId` | src/app/components/photo-list/photo-list.component.ts:146 | No record with the deleted id is left after `filter`. |
| `PhotoListOps.WithoutMembers` | src/app/components/photo-list/photo-list.component.ts:146 | A record is in the filtered list if and only if it was in the original list and its id differs from the deleted one. |
| `PhotoListOps.WithoutIsSubsequence` | src/app/components/photo-list/photo-list.component.ts:146 | The filtered list is a subsequence of the original, so relative order is preserved. |
| `PhotoListOps.WithoutCount` | src/app/components/photo-list/photo-list.component.ts:146 | Every copy of a record with that id is removed, and every copy of any other record is kept. |
| `PhotoListOps.WithoutKeepsLengthIff` | src/app/components/photo-list/photo-list.component.ts:146 | A delete keeps the length if and only if no record had that id, and in that case the list is unchanged. |
| `PhotoListOps.WithoutIdempotent` | src/app/components/photo-list/photo-list.component.ts:146 | Deleting the same id twice is the same as deleting it once. |
| `PhotoListOps.DeleteUndoesCreate` | src/app/components/photo-list/photo-list.component.ts:74 | Deleting the id of a record that was just put at the front gives the same list as deleting that id from the list before the create. |
| `PhotoListOps.DeleteAfterEdit` | src/app/components/photo-list/photo-list.component.ts:127 | Deleting an id after an edit whose response kept that id gives the same list as deleting it without the edit. |

## Left out

- HTTP calls of `PhotoService` (src/app/services/photo.service.ts): network I/O to a fixed URL. Each call and its callback are one atomic method, and the reply is a parameter.
- Observables, subscriptions and several requests in flight at once: each request is resolved inside the method that sends it, so interleavings are not modelled. The callbacks read the component's fields when the reply arrives, and the model does not capture what changes meanwhile:
  - a draft edited while its create is pending, which the create callback would read (line 69);
  - the modal closed, or another record opened, while an update is pending, which changes the `currentEditId` the update callback uses to pick the record to overwrite (line 125).
- PhotoList.PhotoListComponent.DeletePhoto: takes the id as a number, as `deletePhoto(id: number)` declares. The template that calls it is not part of this model. If it passed the `undefined` id of a record without one, the filter would remove every record without an id, and the model cannot express that call.
- `alert`, `confirm`, `console.error` and `ChangeDetectorRef.detectChanges` are UI side effects. `confirm` is the `confirmed` parameter and the rest leave no state.
- `Math.random()`: the fallback id is an arbitrary parameter in [0, 10000), not a random draw.
- Photos.Created: states only that a fallback id lies in [0, 10000), not which value it takes, because the source draws it at random.
- JavaScript numbers are modelled as unbounded integers, so floating-point values, NaN and a non-integer album id are not modelled.
- JavaScript strings are sequences of UTF-16 code units and Dafny characters are Unicode scalar values. Every character `trim` removes is a single code unit, so the completeness check is the same either way.
- The root component (src/app/app.ts), the template, the styling and the Angular decorators carry no logic.
- `Photo` comes from a model file that is not part of this model. Its shape is the JSON record `{ id?, albumId, title, url, thumbnailUrl }` the component uses.
