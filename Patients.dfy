/**
 * The patient form: name, contact, address and the list of condition ids
 * ticked for the patient, shared between creating and editing a patient.
 */
module Patients {
  import opened Js

  datatype Contact = Contact(email: string, phone: string)

  datatype Address = Address(street: string, streetNumber: string, city: string, country: string, zip: string)

  datatype Patient = Patient(id: string, name: string, contact: Contact, address: Address, conditions: seq<string>)

  datatype FormData = FormData(name: string, contact: Contact, address: Address, conditions: seq<string>)

  /** What saving the form sends. */
  datatype SaveRequest = UpdatePatient(id: string, data: FormData) | CreatePatient(data: FormData)

  /** The form `resetForm` installs: every field empty, no condition. */
  function EmptyForm(): (f: FormData)
    ensures f.name == [] && f.conditions == []
    ensures f.contact.email == [] && f.contact.phone == []
    ensures f.address.street == [] && f.address.streetNumber == [] && f.address.city == []
    ensures f.address.country == [] && f.address.zip == []
  {
    FormData("", Contact("", ""), Address("", "", "", "", ""), [])
  }

  /** A condition id is its own key. */
  function ConditionId(id: string): string
  {
    id
  }

  /** `ids.filter(x => x !== id)` */
  function RemoveAll(ids: seq<string>, id: string): seq<string>
  {
    WithoutKey(ids, ConditionId, id)
  }

  /** `toggleCondition`: an absent id is appended, a present one is removed wherever it occurs. */
  function Toggle(ids: seq<string>, id: string): (r: seq<string>)
    ensures id !in ids ==> r == ids + [id]
    ensures id in ids ==> id !in r && r == RemoveAll(ids, id)
    ensures forall x :: x != id ==> (x in r <==> x in ids)
  {
    if id in ids then RemoveAll(ids, id) else ids + [id]
  }

  /** Toggling an absent id twice gives back the original list. */
  lemma ToggleTwice(ids: seq<string>, id: string)
    requires id !in ids
    ensures Toggle(Toggle(ids, id), id) == ids
  {
    WithoutKeyAppend(ids, [id], ConditionId, id);
    WithoutKeyAbsent(ids, ConditionId, id);
    assert RemoveAll([id], id) == [];
  }

  predicate NoDuplicates(ids: seq<string>)
  {
    forall i, j :: 0 <= i < j < |ids| ==> ids[i] != ids[j]
  }

  lemma {:induction false} RemoveAllNoDuplicates(ids: seq<string>, id: string)
    requires NoDuplicates(ids)
    ensures NoDuplicates(RemoveAll(ids, id))
  {
    if ids != [] {
      RemoveAllNoDuplicates(ids[1..], id);
      assert ids[0] !in ids[1..];
    }
  }

  /** Toggling never creates a duplicate in a list without one. */
  lemma ToggleNoDuplicates(ids: seq<string>, id: string)
    requires NoDuplicates(ids)
    ensures NoDuplicates(Toggle(ids, id))
  {
    if id in ids {
      RemoveAllNoDuplicates(ids, id);
    }
  }

  /** The page's form state. */
  class PatientForm {
    var formData: FormData
    var editingPatient: Option<Patient>
    var isDialogOpen: bool

    constructor ()
      ensures formData == EmptyForm() && editingPatient == None && !isDialogOpen
    {
      formData, editingPatient, isDialogOpen := EmptyForm(), None, false;
    }

    /** `resetForm`: every field emptied and no patient being edited. */
    method ResetForm()
      modifies this
      ensures formData == EmptyForm() && editingPatient == None
      ensures isDialogOpen == old(isDialogOpen)
    {
      formData := EmptyForm();
      editingPatient := None;
    }

    /** `handleEdit`: the form holds exactly the patient's fields and conditions, and the dialog opens. */
    method Edit(patient: Patient)
      modifies this
      ensures editingPatient == Some(patient) && isDialogOpen
      ensures formData == FormData(patient.name, patient.contact, patient.address, patient.conditions)
    {
      editingPatient := Some(patient);
      formData := FormData(patient.name, patient.contact, patient.address, patient.conditions);
      isDialogOpen := true;
    }

    method ToggleCondition(conditionId: string)
      modifies this
      ensures formData == old(formData).(conditions := Toggle(old(formData).conditions, conditionId))
      ensures editingPatient == old(editingPatient) && isDialogOpen == old(isDialogOpen)
    {
      formData := formData.(conditions := Toggle(formData.conditions, conditionId));
    }

    /**
     * `handleSubmit`: the form is sent as an update of the patient being
     * edited, or as a new patient; on success the dialog closes and the form
     * is reset, on failure nothing changes.
     */
    method Submit(saveSucceeds: bool) returns (request: SaveRequest)
      modifies this
      ensures request == if old(editingPatient).Some? then UpdatePatient(old(editingPatient).value.id, old(formData))
                         else CreatePatient(old(formData))
      ensures saveSucceeds ==> !isDialogOpen && formData == EmptyForm() && editingPatient == None
      ensures !saveSucceeds ==> formData == old(formData) && editingPatient == old(editingPatient) && isDialogOpen == old(isDialogOpen)
    {
      if editingPatient.Some? {
        request := UpdatePatient(editingPatient.value.id, formData);
      } else {
        request := CreatePatient(formData);
      }
      if saveSucceeds {
        isDialogOpen := false;
        ResetForm();
      }
    }
  }
}
