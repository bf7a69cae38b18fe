/** The list view's type filter (src/components/CafeList.tsx): the selected
    type, the `debounceTimer` ref, and the browser timers it schedules and
    clears. Timer expiry and fetch completion are explicit events. */
module CafeList {
  import opened Cafes
  import opened App

  /** A map of live timers all of whose ids equal the one id held in the ref
      holds at most one timer. */
  lemma AtMostOneScheduled(scheduled: map<nat, string>, timerRef: Option<nat>)
    requires forall id :: id in scheduled ==> timerRef == Some(id)
    ensures |scheduled| <= 1
    ensures timerRef.None? ==> scheduled == map[]
  {
    if timerRef.Some? {
      assert scheduled.Keys <= {timerRef.value};
      SubsetCard(scheduled.Keys, {timerRef.value});
    } else {
      assert scheduled.Keys == {};
    }
  }

  lemma {:induction false} SubsetCard(a: set<nat>, b: set<nat>)
    requires a <= b
    ensures |a| <= |b|
  {
    if a != {} {
      var x :| x in a;
      SubsetCard(a - {x}, b - {x});
    }
  }

  class TypeFilter {
    /** The `setFilteredCafes` prop, i.e. the root component's replace. */
    const app: AppState
    /** `const [selectedType, setSelectedType] = useState<string>('hot')` */
    var selectedType: string
    /** `debounceTimer.current`: the id of the last timer scheduled, if any.
        Nothing resets it when that timer fires. */
    var timerRef: Option<nat>
    /** The browser's live timers of this view: id to the type its callback captured. */
    var scheduled: map<nat, string>
    /** The id the next `window.setTimeout` returns. */
    var nextTimerId: nat

    /** Only the timer named by the ref can be live, and it carries the
        selected type; ids handed out so far are below `nextTimerId`. */
    ghost predicate Valid()
      reads this
    {
      (forall id :: id in scheduled ==> timerRef == Some(id) && scheduled[id] == selectedType) &&
      (timerRef.Some? ==> timerRef.value < nextTimerId)
    }

    constructor (app: AppState)
      ensures Valid() && this.app == app
      ensures selectedType == "hot" && timerRef == None && scheduled == map[]
    {
      this.app := app;
      selectedType := "hot";
      timerRef := None;
      scheduled := map[];
      nextTimerId := 1;
    }

    /** `handleTypeChange`: select the type at once, clear the timer the ref
        names, schedule a fresh one that will fetch this type, keep its id. */
    method HandleTypeChange(kind: string)
      requires Valid()
      modifies this`selectedType, this`timerRef, this`scheduled, this`nextTimerId
      ensures Valid()
      ensures selectedType == kind
      ensures timerRef == Some(old(nextTimerId)) && nextTimerId == old(nextTimerId) + 1
      ensures scheduled == map[old(nextTimerId) := kind]
      ensures old(timerRef).Some? ==> old(timerRef).value !in scheduled
    {
      AtMostOneScheduled(scheduled, timerRef);
      selectedType := kind;
      if timerRef.Some? {
        scheduled := map id | id in scheduled && id != timerRef.value :: scheduled[id];
      }
      assert scheduled == map[];
      var id := nextTimerId;
      nextTimerId := nextTimerId + 1;
      scheduled := scheduled[id := kind];
      timerRef := Some(id);
    }

    /** The timer `id` expires. A live one issues the GET for the type its
        callback captured, which is the selected type: the last change wins.
        A cleared or already fired id does nothing. */
    method Fire(id: nat) returns (request: Option<string>)
      requires Valid()
      modifies this`scheduled
      ensures Valid()
      ensures request.Some? <==> id in old(scheduled)
      ensures request.Some? ==> request.value == selectedType && timerRef == Some(id)
      ensures scheduled == map i | i in old(scheduled) && i != id :: old(scheduled)[i]
      ensures |scheduled| <= 1
    {
      if id in scheduled {
        request := Some(scheduled[id]);
      } else {
        request := None;
      }
      scheduled := map i | i in scheduled && i != id :: scheduled[i];
      AtMostOneScheduled(scheduled, timerRef);
    }

    /** The GET a timer issued settles: on success the projected response
        replaces the whole list, on failure (only logged) the list stays. */
    method ResolveFetch(response: Response)
      modifies app
      ensures response.Loaded? ==> app.cafes == Project(response.items)
      ensures response.Failed? ==> app.cafes == old(app.cafes)
    {
      if response.Loaded? {
        app.HandleFilteredCafes(Project(response.items));
      }
    }
  }

  /** Three quick changes ending on "iced": only the last timer is live, so
      exactly one GET, for "iced", is issued; its response replaces the list. */
  method DebounceScenario()
  {
    var app := new AppState();
    var filter := new TypeFilter(app);
    filter.HandleTypeChange("iced");
    var first := filter.timerRef.value;
    filter.HandleTypeChange("hot");
    filter.HandleTypeChange("iced");
    var last := filter.timerRef.value;
    var stale := filter.Fire(first);
    assert stale == None;
    var request := filter.Fire(last);
    assert request == Some("iced") && filter.scheduled == map[];
    filter.ResolveFetch(Loaded([RemoteItem("Iced Latte", "iced", map["id" := "7"])]));
    assert app.cafes == [Cafe("Iced Latte", "iced")];
    filter.ResolveFetch(Failed);
    assert app.cafes == [Cafe("Iced Latte", "iced")];
  }
}
