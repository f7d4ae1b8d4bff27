/**
 * The clinician's dashboard: the tests they created and the assignments of
 * those tests to patients, each assignment card offering "Take Test" or
 * "Review/Score" according to its status.
 */
module Dashboard {
  import opened Js

  datatype StatusCode = Pending | InProgress | Completed

  datatype Status = Status(id: string, code: StatusCode, name: string)

  /**
   * An assignment's results. The review screen reads `results.answers` from
   * the same object, so a submitted but unscored assignment can carry results
   * without a `scorePercent`.
   */
  datatype Results = Results(scorePercent: Option<real>, notes: Option<string>)

  datatype AssignedTest = AssignedTest(id: string, testName: string, patientName: string, status: Option<Status>, results: Option<Results>)

  datatype LocalTest = LocalTest(id: string, name: string)

  /** What `getAssignedTests` returned: a list, or a single object. */
  datatype AssignedResponse = Many(items: seq<AssignedTest>) | One(item: AssignedTest)

  /** The outcome of rendering a piece of a card: the render can throw. */
  datatype Render<T> = Crash | Shown(value: T)

  /** The score line and notes shown under a card: notes only when non-empty. */
  datatype ResultsView = ResultsView(scorePercent: Option<real>, notes: Option<string>)

  predicate IsCompleted(a: AssignedTest)
  {
    a.status.Some? && a.status.value.code == Completed
  }

  /** "Take Test" is offered whenever the status code is not COMPLETED (a missing status included). */
  function TakeTestOffered(a: AssignedTest): (offered: bool)
    ensures offered <==> !IsCompleted(a)
  {
    !(a.status.Some? && a.status.value.code == Completed)
  }

  /**
   * "Review/Score": only for COMPLETED assignments whose `results.scorePercent`
   * is falsy (absent or 0). The guard reads `results.scorePercent` without
   * optional chaining, so a COMPLETED assignment without results makes the
   * render throw.
   */
  function ReviewOffered(a: AssignedTest): (r: Render<bool>)
    ensures r.Crash? <==> IsCompleted(a) && a.results.None?
    ensures r == Shown(true) <==> IsCompleted(a) && a.results.Some? &&
                                  (a.results.value.scorePercent.None? || a.results.value.scorePercent == Some(0.0))
  {
    if a.status.Some? && a.status.value.code == Completed then
      if a.results.None? then Crash
      else Shown(a.results.value.scorePercent.None? || a.results.value.scorePercent.value == 0.0)
    else Shown(false)
  }

  /** The two buttons never appear together, and a nonzero score hides "Review/Score". */
  lemma ReviewExcludesTake(a: AssignedTest)
    ensures ReviewOffered(a) == Shown(true) ==> !TakeTestOffered(a)
    ensures TakeTestOffered(a) ==> ReviewOffered(a) == Shown(false)
    ensures a.results.Some? && a.results.value.scorePercent.Some? && a.results.value.scorePercent.value != 0.0 ==>
              ReviewOffered(a) != Shown(true)
  {
  }

  /** The score block: present exactly when `results` is; the notes only when non-empty. */
  function ResultsBlock(a: AssignedTest): (r: Option<ResultsView>)
    ensures r.Some? <==> a.results.Some?
    ensures r.Some? ==> r.value.scorePercent == a.results.value.scorePercent
    ensures r.Some? ==> (r.value.notes.Some? <==> a.results.value.notes.Some? && a.results.value.notes.value != [])
    ensures r.Some? && r.value.notes.Some? ==> r.value.notes == a.results.value.notes
  {
    match a.results
    case None => None
    case Some(res) =>
      Some(ResultsView(res.scorePercent, if res.notes.Some? && res.notes.value != [] then res.notes else None))
  }

  /** `Array.isArray(assigned) ? assigned : [assigned]` */
  function Normalise(response: AssignedResponse): (r: seq<AssignedTest>)
    ensures response.Many? ==> r == response.items
    ensures response.One? ==> |r| == 1 && r[0] == response.item
  {
    match response
    case Many(items) => items
    case One(item) => [item]
  }

  function TestId(t: LocalTest): string
  {
    t.id
  }

  function AssignmentId(a: AssignedTest): string
  {
    a.id
  }

  /** `tests.filter(t => t._id !== id)` */
  function WithoutTest(tests: seq<LocalTest>, id: string): seq<LocalTest>
  {
    WithoutKey(tests, TestId, id)
  }

  /** `assignedTests.filter(t => t._id !== id)` */
  function WithoutAssignment(cards: seq<AssignedTest>, id: string): seq<AssignedTest>
  {
    WithoutKey(cards, AssignmentId, id)
  }

  /** The dashboard's state; `stored` is the `tests` entry of local storage. */
  class Board {
    var tests: seq<LocalTest>
    var assignedTests: seq<AssignedTest>
    var stored: Option<seq<LocalTest>>
    var isLoading: bool

    constructor (stored: Option<seq<LocalTest>>)
      ensures tests == [] && assignedTests == [] && this.stored == stored && isLoading
    {
      tests, assignedTests, this.stored, isLoading := [], [], stored, true;
    }

    /**
     * `fetchTests`: the tests, then the assignments, are fetched (`None` is a
     * failed request). Any failure falls back to the stored tests, even after
     * the fetched tests were set.
     */
    method FetchTests(fetchedTests: Option<seq<LocalTest>>, fetchedAssigned: Option<AssignedResponse>)
      modifies this
      ensures var failed := fetchedTests.None? || fetchedAssigned.None?;
              tests == if failed && stored.Some? then stored.value
                       else if fetchedTests.Some? then fetchedTests.value else old(tests)
      ensures assignedTests == if fetchedTests.Some? && fetchedAssigned.Some? then Normalise(fetchedAssigned.value) else old(assignedTests)
      ensures stored == old(stored) && !isLoading
    {
      if fetchedTests.None? {
        if stored.Some? {
          tests := stored.value;
        }
      } else {
        tests := fetchedTests.value;
        if fetchedAssigned.None? {
          if stored.Some? {
            tests := stored.value;
          }
        } else {
          assignedTests := Normalise(fetchedAssigned.value);
        }
      }
      isLoading := false;
    }

    /**
     * `handleDeleteTest`: the assignments lose the id only after a confirmed,
     * successful server delete; the local list and its stored copy lose it in
     * every case, cancelled or failed included.
     */
    method DeleteTest(testId: string, confirmed: bool, deleteSucceeds: bool)
      modifies this
      ensures tests == WithoutTest(old(tests), testId) && stored == Some(tests)
      ensures forall t :: t in tests ==> t.id != testId
      ensures assignedTests == if confirmed && deleteSucceeds then WithoutAssignment(old(assignedTests), testId) else old(assignedTests)
      ensures isLoading == old(isLoading)
    {
      if confirmed && deleteSucceeds {
        assignedTests := WithoutAssignment(assignedTests, testId);
      }
      var updatedTests := WithoutTest(tests, testId);
      tests := updatedTests;
      stored := Some(updatedTests);
    }
  }
}
