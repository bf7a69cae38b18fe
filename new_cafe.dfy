/** The creation form (src/components/NewCafe.tsx): a draft record edited one
    field at a time, and a save that either reports the missing fields or hands
    the draft to the root component's append. */
module NewCafe {
  import opened Cafes
  import opened App

  const FillAllFields := "Preencha todos os campos"

  /** The guard of `handleSaveClick`: `!cafe.title || !cafe.type` holds exactly
      when a field is the empty string; the error text is then the one shown. */
  function SaveError(c: Cafe): (err: Option<string>)
    ensures err.None? <==> c.title != "" && c.kind != ""
    ensures err.Some? ==> err.value == FillAllFields
  {
    if c.title == "" || c.kind == "" then Some(FillAllFields) else None
  }

  class NewCafeForm {
    /** The `handleNewCafe` prop, i.e. the root component's append. */
    const app: AppState
    var cafe: Cafe
    var openSuccessSnackbar: bool
    var openErrorSnackbar: bool
    var errorMessage: string

    constructor (app: AppState)
      ensures this.app == app
      ensures cafe == Cafe("", "")
      ensures !openSuccessSnackbar && !openErrorSnackbar && errorMessage == ""
    {
      this.app := app;
      cafe := Cafe("", "");
      openSuccessSnackbar, openErrorSnackbar := false, false;
      errorMessage := "";
    }

    /** `handleInputChange`: only the named field of the draft changes. */
    method HandleInputChange(f: Field, v: string)
      modifies this`cafe
      ensures cafe == WithField(old(cafe), f, v)
      ensures FieldOf(cafe, f) == v
      ensures forall g :: g != f ==> FieldOf(cafe, g) == FieldOf(old(cafe), g)
    {
      cafe := WithField(cafe, f, v);
    }

    /** `handleSaveClick`: with an empty field, set the error text, open the
        error snackbar and return before the append; otherwise append the
        draft exactly once and open the success snackbar. */
    method HandleSaveClick()
      modifies this`openSuccessSnackbar, this`openErrorSnackbar, this`errorMessage, app
      ensures SaveError(old(cafe)).Some? ==>
        errorMessage == FillAllFields && openErrorSnackbar &&
        app.cafes == old(app.cafes) && openSuccessSnackbar == old(openSuccessSnackbar)
      ensures SaveError(old(cafe)).None? ==>
        app.cafes == old(app.cafes) + [old(cafe)] && openSuccessSnackbar &&
        errorMessage == old(errorMessage) && openErrorSnackbar == old(openErrorSnackbar)
      ensures cafe == old(cafe)
    {
      var err := SaveError(cafe);
      if err.Some? {
        errorMessage := err.value;
        openErrorSnackbar := true;
        return;
      }
      app.HandleNewCafe(cafe);
      openSuccessSnackbar := true;
    }

    /** `handleErrorSnackbarClose`. */
    method HandleErrorSnackbarClose()
      modifies this`openErrorSnackbar
      ensures !openErrorSnackbar
    {
      openErrorSnackbar := false;
    }
  }

  /** Saving an untouched form is refused; filling both fields and saving
      appends the record even when its title is already listed. */
  method CreateScenario()
  {
    var app := new AppState();
    app.HandleFilteredCafes([Cafe("Latte", "Hot")]);
    var form := new NewCafeForm(app);
    form.HandleSaveClick();
    assert app.cafes == [Cafe("Latte", "Hot")] && form.errorMessage == FillAllFields;
    form.HandleInputChange(Title, "Latte");
    form.HandleSaveClick();
    assert app.cafes == [Cafe("Latte", "Hot")];
    form.HandleInputChange(Type, "Iced");
    form.HandleSaveClick();
    assert app.cafes == [Cafe("Latte", "Hot"), Cafe("Latte", "Iced")];
  }
}
