/** The root component's state: the one list of cafés every view reads, and
    the three ways it is replaced or extended (src/App.tsx). */
module App {
  import opened Cafes

  class AppState {
    /** `const [cafes, setCafes] = useState<Cafe[]>([])` */
    var cafes: seq<Cafe>

    constructor ()
      ensures cafes == []
    {
      cafes := [];
    }

    /** The mount effect: GET `/coffee/hot`; on success the projected response
        replaces the list, on failure (only logged) the list stays as it was. */
    method ApplyInitialLoad(response: Response)
      modifies this
      ensures response.Loaded? ==> cafes == Project(response.items)
      ensures response.Failed? ==> cafes == old(cafes)
    {
      if response.Loaded? {
        cafes := Project(response.items);
      }
    }

    /** `handleNewCafe`: append at the end, with no check of any kind. */
    method HandleNewCafe(newCafe: Cafe)
      modifies this
      ensures cafes == old(cafes) + [newCafe]
      ensures |cafes| == |old(cafes)| + 1 && cafes[|cafes| - 1] == newCafe
      ensures CountTitle(cafes, newCafe.title) == CountTitle(old(cafes), newCafe.title) + 1
    {
      NewCafeAddsOneTitle(cafes, newCafe);
      cafes := cafes + [newCafe];
    }

    /** `handleFilteredCafes`: the given list becomes the list. */
    method HandleFilteredCafes(updated: seq<Cafe>)
      modifies this
      ensures cafes == updated
    {
      cafes := updated;
    }
  }

  /** Appending never rejects a title already present: the list then holds one
      more record with that title, so duplicates arise. */
  lemma NewCafeAddsOneTitle(cafes: seq<Cafe>, c: Cafe)
    ensures CountTitle(cafes + [c], c.title) == CountTitle(cafes, c.title) + 1
    ensures CountTitle(cafes, c.title) > 0 ==> CountTitle(cafes + [c], c.title) >= 2
  {
    CountTitleAppend(cafes, [c], c.title);
  }

  /** Start, then the mount fetch resolves with two items: the list is exactly
      those two records in response order; a failing fetch leaves it empty. */
  method InitialLoadScenario()
  {
    var a := RemoteItem("Bean A", "Hot", map["id" := "1"]);
    var b := RemoteItem("Bean B", "Hot", map["id" := "2"]);
    var app := new AppState();
    app.ApplyInitialLoad(Loaded([a, b]));
    assert app.cafes == [Cafe("Bean A", "Hot"), Cafe("Bean B", "Hot")];

    var other := new AppState();
    other.ApplyInitialLoad(Failed);
    assert other.cafes == [];
  }
}
