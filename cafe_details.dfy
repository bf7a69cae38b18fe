/** The detail/edit view (src/components/CafeDetails.tsx): the first-match
    lookup of the route title, the edit draft, and save and delete, which push
    a whole new list to the root component. */
module CafeDetails {
  import opened Cafes
  import opened App

  /** Index `i` holds the first record titled `title`. */
  ghost predicate IsFirstMatch(cafes: seq<Cafe>, title: string, i: int)
  {
    0 <= i < |cafes| && cafes[i].title == title &&
    forall j :: 0 <= j < i ==> cafes[j].title != title
  }

  /** `cafes.find(cafe => cafe.title === title)`. */
  function Find(cafes: seq<Cafe>, title: string): (r: Option<Cafe>)
    ensures r.None? <==> forall i :: 0 <= i < |cafes| ==> cafes[i].title != title
    ensures forall i :: IsFirstMatch(cafes, title, i) ==> r == Some(cafes[i])
  {
    if cafes == [] then None
    else if cafes[0].title == title then Some(cafes[0])
    else
      var r := Find(cafes[1..], title);
      assert forall i :: IsFirstMatch(cafes, title, i) ==> IsFirstMatch(cafes[1..], title, i - 1);
      r
  }

  /** Whatever `find` returns is a record of the list carrying the searched title. */
  lemma {:induction false} FindFound(cafes: seq<Cafe>, title: string)
    requires Find(cafes, title).Some?
    ensures Find(cafes, title).value in cafes && Find(cafes, title).value.title == title
  {
    if cafes[0].title != title {
      FindFound(cafes[1..], title);
    }
  }

  /** Lookup after an append: a record already carrying the title shadows the
      new one, so a duplicate added by the form is never what the view opens. */
  lemma {:induction false} FindAfterAppend(cafes: seq<Cafe>, c: Cafe, title: string)
    ensures Find(cafes + [c], title) ==
      if Find(cafes, title).Some? then Find(cafes, title)
      else if c.title == title then Some(c) else None
  {
    if cafes == [] {
      assert cafes + [c] == [c];
    } else {
      assert (cafes + [c])[1..] == cafes[1..] + [c];
      FindAfterAppend(cafes[1..], c, title);
    }
  }

  /** `cafes.map(cafe => cafe.title === edited.title ? edited : cafe)`: every
      record with the draft's title becomes the draft, all others stay, and
      length and positions are kept. */
  function ReplaceByTitle(cafes: seq<Cafe>, edited: Cafe): (r: seq<Cafe>)
    ensures |r| == |cafes|
    ensures forall i :: 0 <= i < |cafes| && cafes[i].title == edited.title ==> r[i] == edited
    ensures forall i :: 0 <= i < |cafes| && cafes[i].title != edited.title ==> r[i] == cafes[i]
  {
    if cafes == [] then []
    else [if cafes[0].title == edited.title then edited else cafes[0]] + ReplaceByTitle(cafes[1..], edited)
  }

  /** Saving when no record carries the draft's title leaves the list as it was. */
  lemma ReplaceNoMatch(cafes: seq<Cafe>, edited: Cafe)
    requires CountTitle(cafes, edited.title) == 0
    ensures ReplaceByTitle(cafes, edited) == cafes
  {
  }

  /** Saving twice gives the list saving once gives. */
  lemma ReplaceIdempotent(cafes: seq<Cafe>, edited: Cafe)
    ensures ReplaceByTitle(ReplaceByTitle(cafes, edited), edited) == ReplaceByTitle(cafes, edited)
  {
  }

  /** Save keeps the number of records carrying each title. */
  lemma {:induction false} ReplaceKeepsCounts(cafes: seq<Cafe>, edited: Cafe, title: string)
    ensures CountTitle(ReplaceByTitle(cafes, edited), title) == CountTitle(cafes, title)
  {
    if cafes != [] {
      ReplaceKeepsCounts(cafes[1..], edited, title);
      assert ReplaceByTitle(cafes, edited)[1..] == ReplaceByTitle(cafes[1..], edited);
    }
  }

  /** After a save that matched, looking the title up again yields the draft. */
  lemma SaveThenFind(cafes: seq<Cafe>, edited: Cafe)
    requires CountTitle(cafes, edited.title) > 0
    ensures Find(ReplaceByTitle(cafes, edited), edited.title) == Some(edited)
  {
    var r := ReplaceByTitle(cafes, edited);
    var i :| 0 <= i < |cafes| && cafes[i].title == edited.title;
    FirstMatchExists(r, edited.title, i);
  }

  /** A record titled `title` at index `k` means a first such record exists. */
  lemma {:induction false} FirstMatchExists(cafes: seq<Cafe>, title: string, k: int)
    requires 0 <= k < |cafes| && cafes[k].title == title
    ensures exists i :: IsFirstMatch(cafes, title, i)
    ensures Find(cafes, title).Some?
  {
    if k > 0 && cafes[0].title != title {
      FirstMatchExists(cafes[1..], title, k - 1);
      var i :| IsFirstMatch(cafes[1..], title, i);
      assert IsFirstMatch(cafes, title, i + 1);
    } else if cafes[0].title == title {
      assert IsFirstMatch(cafes, title, 0);
    }
  }

  /** `a` occurs in `b` in the same relative order (possibly with gaps). */
  ghost predicate IsSubsequence(a: seq<Cafe>, b: seq<Cafe>)
    decreases |b|
  {
    if a == [] then true
    else if b == [] then false
    else if a[0] == b[0] then IsSubsequence(a[1..], b[1..])
    else IsSubsequence(a, b[1..])
  }

  /** `cafes.filter(cafe => cafe.title !== title)`: every record with that
      title goes, the survivors keep their relative order, and the length
      drops by the number of matches. */
  function RemoveByTitle(cafes: seq<Cafe>, title: string): (r: seq<Cafe>)
    ensures forall c :: c in r <==> c in cafes && c.title != title
    ensures |r| == |cafes| - CountTitle(cafes, title)
    ensures IsSubsequence(r, cafes)
  {
    if cafes == [] then []
    else if cafes[0].title == title then RemoveByTitle(cafes[1..], title)
    else
      var rest := RemoveByTitle(cafes[1..], title);
      assert ([cafes[0]] + rest)[1..] == rest;
      [cafes[0]] + rest
  }

  /** Deleting a title no record carries leaves the list as it was. */
  lemma {:induction false} RemoveNoMatch(cafes: seq<Cafe>, title: string)
    requires CountTitle(cafes, title) == 0
    ensures RemoveByTitle(cafes, title) == cafes
  {
    if cafes != [] {
      assert cafes[0].title != title;
      RemoveNoMatch(cafes[1..], title);
    }
  }

  /** After a delete, looking the title up again fails: the view shows "not found". */
  lemma DeleteThenFind(cafes: seq<Cafe>, title: string)
    ensures CountTitle(RemoveByTitle(cafes, title), title) == 0
    ensures Find(RemoveByTitle(cafes, title), title) == None
  {
    var r := RemoveByTitle(cafes, title);
    forall i | 0 <= i < |r| ensures r[i].title != title {
      assert r[i] in r;
    }
  }

  /** Delete is spread over concatenation: survivors of each part, in order. */
  lemma {:induction false} RemoveAppend(a: seq<Cafe>, b: seq<Cafe>, title: string)
    ensures RemoveByTitle(a + b, title) == RemoveByTitle(a, title) + RemoveByTitle(b, title)
  {
    if a == [] {
      assert a + b == b;
    } else {
      assert (a + b)[1..] == a[1..] + b;
      RemoveAppend(a[1..], b, title);
    }
  }

  /** What the view renders: the "not found" text or the edit card for a draft. */
  datatype Screen = NotFound | Editing(draft: Cafe)

  const NotFoundText := "Café não encontrado"
  const SavedMessage := "Café salvo com sucesso!"
  const DeletedMessage := "Café excluído com sucesso!"

  class DetailsState {
    /** `cafes` and `setFilteredCafes` come from the root component. */
    const app: AppState
    /** The `:title` route parameter. */
    const routeTitle: string
    var editedCafe: Option<Cafe>
    var showSaveSnackbar: bool
    var showSnackbar: bool
    var snackbarMessage: string
    var showDeleteDialog: bool

    constructor (app: AppState, routeTitle: string)
      ensures this.app == app && this.routeTitle == routeTitle
      ensures editedCafe == Some(Cafe("", "Hot"))
      ensures !showSaveSnackbar && !showSnackbar && snackbarMessage == "" && !showDeleteDialog
    {
      this.app := app;
      this.routeTitle := routeTitle;
      editedCafe := Some(Cafe("", "Hot"));
      showSaveSnackbar, showSnackbar := false, false;
      snackbarMessage := "";
      showDeleteDialog := false;
    }

    /** The effect on `[cafes, title]`: the first record with the route title
        becomes the draft; when none matches the draft keeps its value. */
    method LookUp()
      modifies this`editedCafe
      ensures Find(app.cafes, routeTitle).Some? ==> editedCafe == Find(app.cafes, routeTitle)
      ensures Find(app.cafes, routeTitle).None? ==> editedCafe == old(editedCafe)
    {
      var found := Find(app.cafes, routeTitle);
      if found.Some? {
        editedCafe := found;
      }
    }

    /** `handleInputChange`: overwrite one field of the draft, if there is one. */
    method HandleInputChange(f: Field, v: string)
      modifies this`editedCafe
      ensures old(editedCafe).None? ==> editedCafe == None
      ensures old(editedCafe).Some? ==> editedCafe == Some(WithField(old(editedCafe).value, f, v))
    {
      if editedCafe.Some? {
        editedCafe := Some(WithField(editedCafe.value, f, v));
      }
    }

    /** `handleSaveClick`: every record with the draft's title becomes the
        draft, and the save snackbar opens. Without a draft nothing changes. */
    method HandleSaveClick()
      modifies this`showSaveSnackbar, this`snackbarMessage, app
      ensures old(editedCafe).Some? ==>
        app.cafes == ReplaceByTitle(old(app.cafes), old(editedCafe).value) &&
        showSaveSnackbar && snackbarMessage == SavedMessage
      ensures old(editedCafe).None? ==>
        app.cafes == old(app.cafes) && showSaveSnackbar == old(showSaveSnackbar) &&
        snackbarMessage == old(snackbarMessage)
    {
      if editedCafe.Some? {
        var updated := ReplaceByTitle(app.cafes, editedCafe.value);
        app.HandleFilteredCafes(updated);
        showSaveSnackbar := true;
        snackbarMessage := SavedMessage;
      }
    }

    /** `handleDeleteClick`: every record with the draft's title goes, the
        draft becomes null, the snackbar opens; the dialog closes in any case. */
    method HandleDeleteClick()
      modifies this`editedCafe, this`showSnackbar, this`snackbarMessage, this`showDeleteDialog, app
      ensures old(editedCafe).Some? ==>
        app.cafes == RemoveByTitle(old(app.cafes), old(editedCafe).value.title) &&
        editedCafe == None && showSnackbar && snackbarMessage == DeletedMessage
      ensures old(editedCafe).None? ==>
        app.cafes == old(app.cafes) && editedCafe == None &&
        showSnackbar == old(showSnackbar) && snackbarMessage == old(snackbarMessage)
      ensures !showDeleteDialog
      ensures Render() == NotFound
    {
      if editedCafe.Some? {
        var updated := RemoveByTitle(app.cafes, editedCafe.value.title);
        app.HandleFilteredCafes(updated);
        editedCafe := None;
        showSnackbar := true;
        snackbarMessage := DeletedMessage;
      }
      showDeleteDialog := false;
    }

    /** The second "Excluir" button opens the confirmation dialog. */
    method OpenDeleteDialog()
      modifies this`showDeleteDialog
      ensures showDeleteDialog
    {
      showDeleteDialog := true;
    }

    /** "Cancelar" or closing the dialog. */
    method CloseDeleteDialog()
      modifies this`showDeleteDialog
      ensures !showDeleteDialog
    {
      showDeleteDialog := false;
    }

    /** The not-found guard: without a draft the view renders only the message. */
    function Render(): (s: Screen)
      reads this
      ensures s == NotFound <==> editedCafe.None?
      ensures editedCafe.Some? ==> s.draft == editedCafe.value
    {
      if editedCafe.None? then NotFound else Editing(editedCafe.value)
    }
  }

  /** Open the detail view of a title, edit its type, save; then delete it:
      the list keeps its length across the save and loses the record on delete,
      and the view ends on "not found" even after the lookup re-runs. */
  method EditAndDeleteScenario()
  {
    var app := new AppState();
    app.HandleFilteredCafes([Cafe("Latte", "Hot"), Cafe("Mocha", "Hot")]);
    var view := new DetailsState(app, "Mocha");
    view.LookUp();
    assert view.editedCafe == Some(Cafe("Mocha", "Hot"));
    view.HandleInputChange(Type, "Iced");
    view.HandleSaveClick();
    assert app.cafes == [Cafe("Latte", "Hot"), Cafe("Mocha", "Iced")];
    view.LookUp();
    view.HandleDeleteClick();
    assert app.cafes[0] == Cafe("Latte", "Hot") && |app.cafes| == 1;
    view.LookUp();
    assert view.Render() == NotFound;

    var missing := new DetailsState(app, "Espresso");
    missing.LookUp();
    assert missing.Render() == Editing(Cafe("", "Hot"));
  }
}
