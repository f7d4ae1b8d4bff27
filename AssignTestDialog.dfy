/**
 * The dialog that assigns a test to a patient: a patient, a number of days
 * the assignment stays valid, and an optional timer or stopwatch.
 */
module AssignTestDialog {
  import opened Js

  const DefaultValidDays := 7
  const DefaultTimerValue := 3600

  datatype TimerType = NoTimer | Timer | Stopwatch

  /** The body of `assignTest`; `timerType` is `null` (`None`) for no timer. */
  datatype AssignRequest = AssignRequest(testId: string, patientId: string, validDays: int,
                                         timerType: Option<TimerType>, timerValue: Option<int>)

  /** The valid-days field: `parseInt(value) || 7`. */
  function ValidDaysInput(input: string): (days: int)
    ensures days != 0
    ensures ParseInt(input).None? || ParseInt(input) == Some(0) ==> days == DefaultValidDays
    ensures ParseInt(input).Some? && ParseInt(input).value != 0 ==> days == ParseInt(input).value
  {
    ParseIntOr(input, DefaultValidDays)
  }

  /** The time-limit field: `parseInt(value) || 3600`. */
  function TimerValueInput(input: string): (seconds: int)
    ensures seconds != 0
    ensures ParseInt(input).None? || ParseInt(input) == Some(0) ==> seconds == DefaultTimerValue
    ensures ParseInt(input).Some? && ParseInt(input).value != 0 ==> seconds == ParseInt(input).value
  {
    ParseIntOr(input, DefaultTimerValue)
  }

  /** The request built from the form: "none" is sent as null, and a timer value only with a timer. */
  function AssignPayload(testId: string, patientId: string, validDays: int, timerType: TimerType, timerValue: int): (r: AssignRequest)
    ensures r.testId == testId && r.patientId == patientId && r.validDays == validDays
    ensures r.timerType.None? <==> timerType == NoTimer
    ensures r.timerType.Some? ==> r.timerType.value == timerType
    ensures r.timerValue.Some? <==> timerType == Timer
    ensures r.timerValue.Some? ==> r.timerValue.value == timerValue
  {
    AssignRequest(testId, patientId, validDays,
                  if timerType == NoTimer then None else Some(timerType),
                  if timerType == Timer then Some(timerValue) else None)
  }

  /** The dialog's state. */
  class Dialog {
    var selectedPatientId: string
    var validDays: int
    var timerType: TimerType
    var timerValue: int
    var isSubmitting: bool
    var open: bool

    /** The form's defaults, which a successful assignment restores. */
    ghost predicate AtDefaults()
      reads this
    {
      selectedPatientId == [] && validDays == DefaultValidDays && timerType == NoTimer && timerValue == DefaultTimerValue
    }

    constructor (open: bool)
      ensures AtDefaults() && !isSubmitting && this.open == open
    {
      selectedPatientId, validDays, timerType, timerValue := "", DefaultValidDays, NoTimer, DefaultTimerValue;
      isSubmitting, this.open := false, open;
    }

    /**
     * `handleAssign`: nothing is sent without a selected patient. Otherwise
     * the request is sent; on success the dialog closes and the form returns
     * to its defaults, on failure the form keeps its values. The submitting
     * flag is down afterwards either way.
     */
    method Assign(testId: string, assignSucceeds: bool) returns (request: Option<AssignRequest>)
      modifies this
      ensures old(selectedPatientId) == [] ==> request.None? && unchanged(this)
      ensures old(selectedPatientId) != [] ==>
                && request == Some(AssignPayload(testId, old(selectedPatientId), old(validDays), old(timerType), old(timerValue)))
                && !isSubmitting
                && (assignSucceeds ==> AtDefaults() && !open)
                && (!assignSucceeds ==> selectedPatientId == old(selectedPatientId) && validDays == old(validDays) &&
                                        timerType == old(timerType) && timerValue == old(timerValue) && open == old(open))
    {
      if selectedPatientId == [] {
        return None;
      }
      isSubmitting := true;
      request := Some(AssignPayload(testId, selectedPatientId, validDays, timerType, timerValue));
      if assignSucceeds {
        open := false;
        selectedPatientId := "";
        validDays := DefaultValidDays;
        timerType := NoTimer;
        timerValue := DefaultTimerValue;
      }
      isSubmitting := false;
    }
  }
}
