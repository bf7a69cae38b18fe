# Café list: the client-side list model

This project models, in Dafny, the state logic of a small single-page
application for browsing, filtering, creating, editing and deleting café
records fetched from a public coffee catalogue. There is no backend: the
application keeps one ordered list of cafés `{title, type}` in its root
component, and every view changes that list by handing a whole new list to
the root (or, for creation, an item to append).

What is modelled, file by file:

- `cafes.dfy`, module `Cafes`: the record `Cafe(title, kind)` (`kind` is the
  source's `type` field; `type` is a reserved word in Dafny), the two form
  fields and the one-field edit `{...c, [name]: value}`, a catalogue response
  (`Loaded(items)` or `Failed`, each item with a title, a type and its other
  fields) and the projection of a response onto cafés. `CountTitle` counts the
  records with a title; it is used to state duplicates and deletions.
- `app.dfy`, module `App` (src/App.tsx): class `AppState` holding the list
  `cafes`, starting empty, with the mount fetch's outcome, the append of
  `handleNewCafe` and the wholesale replace of `handleFilteredCafes`.
- `cafe_details.dfy`, module `CafeDetails` (src/components/CafeDetails.tsx):
  `Find` (`find`, first match), `ReplaceByTitle` (`map`, save) and
  `RemoveByTitle` (`filter`, delete) as functions with their properties, and
  class `DetailsState` with the draft `editedCafe`, the snackbar and dialog
  flags, the lookup effect, the field edit, save, delete and the not-found
  guard.
- `new_cafe.dfy`, module `NewCafe` (src/components/NewCafe.tsx): class
  `NewCafeForm` with the draft record, the error text and the snackbar flags;
  the save guard `SaveError`.
- `cafe_list.dfy`, module `CafeList` (src/components/CafeList.tsx): class
  `TypeFilter`, the debounce of the type selector. `timerRef` is the
  `debounceTimer` ref; `scheduled` is the set of the view's live browser
  timers, each with the type its callback captured; `Fire(id)` is a timer
  expiring and `ResolveFetch(response)` is the GET it issued settling.

Four client methods (`App.InitialLoadScenario`, `CafeDetails.EditAndDeleteScenario`,
`NewCafe.CreateScenario`, `CafeList.DebounceScenario`) walk through short
sessions and check the outcomes with assertions, using only the contracts
above.

Behaviour taken from the code where a plain description of the application
says otherwise:

- Save (`map`, src/components/CafeDetails.tsx:97) replaces EVERY record whose
  title equals the draft's, and delete (`filter`, line 111) removes EVERY such
  record; neither stops at the first match. Only the lookup (`find`, line 78)
  is first-match.
- The draft starts as `{title: '', type: 'Hot'}` (line 72), not null. When the
  route title matches no record the draft keeps that default, so the view
  shows an edit card with an empty title, not "Café não encontrado"; that text
  appears only after a delete has set the draft to null (lines 113, 124-125).
  `EditAndDeleteScenario` shows both.
- On a failed initial fetch the list is simply not replaced; it is empty only
  because nothing else has changed it yet.

## Model

| member | source | states |
|---|---|---|
| Cafes.WithField | src/components/NewCafe.tsx:34-40 | after `{...c, [name]: value}` the named field holds `value` and every other field keeps its old value |
| Cafes.WithFieldSameValue | src/components/CafeDetails.tsx:84-92 | writing back a field's current value leaves the record unchanged |
| Cafes.WithFieldTwice | src/components/NewCafe.tsx:34-40 | two edits of the same field: the later value wins |
| Cafes.Project | src/App.tsx:14-19 | the projection has the response's length and order, and element i carries exactly item i's title and type |
| Cafes.ProjectEmbedAll | src/App.tsx:14-19 | projecting a response built from a list of cafés gives back exactly that list |
| Cafes.ProjectIgnoresOthers | src/components/CafeList.tsx:30-35 | two responses that agree on every item's title and type project to the same list: other fields are dropped |
| Cafes.ProjectAppend | src/components/CafeList.tsx:31-34 | projecting a concatenated response is the concatenation of the projections (order kept) |
| App.AppState.constructor | src/App.tsx:9 | the list starts empty |
| App.AppState.ApplyInitialLoad | src/App.tsx:11-24 | a successful mount fetch makes the list the projected response; a failed one leaves it as it was |
| App.AppState.HandleNewCafe | src/App.tsx:26-28 | the list becomes the old list plus the new café at the end: one longer, café last, earlier records unchanged, and one more record with that title |
| App.AppState.HandleFilteredCafes | src/App.tsx:30-32 | the list becomes exactly the given list |
| App.NewCafeAddsOneTitle | src/App.tsx:27 | appending never rejects a title already present: the count of that title grows by one, to at least two when it was present |
| CafeDetails.Find | src/components/CafeDetails.tsx:78 | absent exactly when no record has the title; otherwise the record at the first index with that title |
| CafeDetails.FindFound | src/components/CafeDetails.tsx:78 | a found record belongs to the list and carries the searched title |
| CafeDetails.FirstMatchExists | src/components/CafeDetails.tsx:77-82 | any record with the title means a first such index exists and the lookup succeeds |
| CafeDetails.FindAfterAppend | src/components/CafeDetails.tsx:77-82 | after an append, the lookup returns the earlier match if there was one, else the appended café if its title matches, else nothing |
| CafeDetails.ReplaceByTitle | src/components/CafeDetails.tsx:97 | same length and positions; every record with the draft's title becomes the draft, every other record is unchanged |
| CafeDetails.ReplaceNoMatch | src/components/CafeDetails.tsx:97 | when no record has the draft's title, save leaves the list unchanged |
| CafeDetails.ReplaceIdempotent | src/components/CafeDetails.tsx:97 | saving twice gives the same list as saving once |
| CafeDetails.ReplaceKeepsCounts | src/components/CafeDetails.tsx:97 | save keeps the number of records carrying each title |
| CafeDetails.SaveThenFind | src/components/CafeDetails.tsx:97 | after a save that matched, the lookup of the draft's title returns the draft |
| CafeDetails.RemoveByTitle | src/components/CafeDetails.tsx:111 | a record survives exactly when it was in the list with another title; the length drops by the number of matches; the survivors are a subsequence (relative order kept) |
| CafeDetails.RemoveNoMatch | src/components/CafeDetails.tsx:111 | when no record has the title, delete leaves the list unchanged |
| CafeDetails.RemoveAppend | src/components/CafeDetails.tsx:111 | delete on a concatenation is the concatenation of the deletes: survivors stay in order |
| CafeDetails.DeleteThenFind | src/components/CafeDetails.tsx:111-113 | after a delete no record has the title and the lookup finds nothing |
| CafeDetails.DetailsState.constructor | src/components/CafeDetails.tsx:68-75 | the draft starts as `{title: '', type: 'Hot'}`, all flags closed, empty message |
| CafeDetails.DetailsState.LookUp | src/components/CafeDetails.tsx:77-82 | the draft becomes the first record with the route title; with no match it keeps its previous value |
| CafeDetails.DetailsState.HandleInputChange | src/components/CafeDetails.tsx:84-92 | with a draft, only the named field changes; without one, nothing |
| CafeDetails.DetailsState.HandleSaveClick | src/components/CafeDetails.tsx:94-107 | with a draft the list becomes the map-replace by its title and the save snackbar opens with its message; without one nothing changes |
| CafeDetails.DetailsState.HandleDeleteClick | src/components/CafeDetails.tsx:109-119 | with a draft the list loses every record with its title, the draft becomes null and the snackbar opens with its message; the dialog closes and the view renders "not found" in every case |
| CafeDetails.DetailsState.OpenDeleteDialog | src/components/CafeDetails.tsx:231 | the delete dialog opens |
| CafeDetails.DetailsState.CloseDeleteDialog | src/components/CafeDetails.tsx:236 | the delete dialog closes |
| CafeDetails.DetailsState.Render | src/components/CafeDetails.tsx:124-126 | the view is "not found" exactly when there is no draft, otherwise the edit card of the draft |
| NewCafe.SaveError | src/components/NewCafe.tsx:43-47 | an error exactly when the title or the type is empty, and then the text 'Preencha todos os campos' |
| NewCafe.NewCafeForm.constructor | src/components/NewCafe.tsx:27-32 | the form starts as `{title: '', type: ''}`, both snackbars closed, no error text |
| NewCafe.NewCafeForm.HandleInputChange | src/components/NewCafe.tsx:34-40 | only the named field of the form record changes |
| NewCafe.NewCafeForm.HandleSaveClick | src/components/NewCafe.tsx:42-51 | with an empty field: error text set, error snackbar open, list unchanged; otherwise the form record appended exactly once and the success snackbar open |
| NewCafe.NewCafeForm.HandleErrorSnackbarClose | src/components/NewCafe.tsx:57-59 | the error snackbar closes |
| CafeList.AtMostOneScheduled | src/components/CafeList.tsx:24-27 | when every live timer is the one the ref names, at most one timer is live, and none when the ref is empty |
| CafeList.TypeFilter.constructor | src/components/CafeList.tsx:17-19 | the selected type starts as 'hot' and no timer is scheduled |
| CafeList.TypeFilter.HandleTypeChange | src/components/CafeList.tsx:21-41 | the type is selected at once; the timer the ref named is cleared; exactly one fresh timer, capturing the new type, is live and the ref names it |
| CafeList.TypeFilter.Fire | src/components/CafeList.tsx:27-28 | a live timer issues one GET, for the most recently selected type (last change wins); a cleared or fired one issues nothing; the ref is not reset |
| CafeList.TypeFilter.ResolveFetch | src/components/CafeList.tsx:29-39 | a successful refetch replaces the whole list with the projected response; a failed one leaves the list unchanged |

## Left out

- The HTTP client and the remote catalogue: a response is a parameter
  (`Loaded(items)` or `Failed`); the URLs `/coffee/hot` and `/coffee/{type}`
  appear only as the type a request is for.
- Real time: `setTimeout` with 500 ms and `clearTimeout` become the discrete
  events `HandleTypeChange` (clear and schedule) and `Fire` (expiry). Timer
  ids start at 1 and grow by one; the browser's actual ids are not modelled.
- Out-of-order resolution of GETs already in flight: that is concurrency the
  code does not handle; `ResolveFetch` applies whichever response settles.
- React rendering, effect scheduling and batched state updates: handlers run
  one after another on the current state, and the lookup effect runs when
  `LookUp` is called.
- JSX, all `styled(...)` definitions, the duplicated button row
  (src/components/CafeDetails.tsx:226-233) and the dialog and snackbar
  presentation beyond their flags and messages.
- Navigation (`navigate('/cafes')`, `navigate('/')`, `navigate(-1)`,
  `handleBackClick`, `/cafe/${title}` links): the route title is a parameter
  of `DetailsState`.
- `console.log`, `alert` and the try/catch around save: mapping a list
  cannot throw here.
- The upper-casing of the selected type in table cells
  (src/components/CafeList.tsx:105): display only.
- Form input names other than `title` and `type`: `{...c, [name]: value}`
  would add a new key for any other name, but the forms only have those two
  inputs.
