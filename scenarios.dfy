/** Request sequences run against a fresh store, showing what callers can
    conclude from the store's contracts alone. */
module Scenarios {
  import opened Json
  import opened Router
  import opened Records
  import opened Api

  const Admission: Record := map["mrn" := Str("A1"), "name" := Str("X"), "specialty" := Str("Cardiology")]

  /** POST /patients with the admission body on an empty store. */
  method Admit(store: Store) returns (created: Response)
    requires store.Valid() && store.patients == [] && store.notes == []
    modifies store
    ensures store.Valid() && store.patients == [Activated(Admission)] && store.notes == []
    ensures created == Response(201, Item(Activated(Admission)))
    ensures Keyed(Activated(Admission), "mrn", "A1") && Keyed(Activated(Admission), "name", "X")
    ensures Keyed(Activated(Admission), "specialty", "Cardiology")
  {
    created := store.CreatePatient(Some(Admission));
  }

  /** POST /patients/A1/discharge with notes "stable" on a store holding
      exactly one patient, whose MRN is A1. */
  method DischargeA1(store: Store, noteId: string, dischargedAt: string, notedAt: string)
    returns (discharged: Response)
    requires store.Valid() && |store.patients| == 1 && Keyed(store.patients[0], "mrn", "A1")
    modifies store
    ensures store.Valid()
    ensures store.patients == [Discharged(old(store.patients[0]), dischargedAt)]
    ensures store.notes == old(store.notes) + [DischargeNote(noteId, "A1", notedAt, "stable")]
    ensures discharged == Response(200, Item(store.patients[0]))
    ensures Keyed(store.patients[0], "mrn", "A1") && Keyed(store.patients[0], "status", "Discharged")
    ensures Keyed(store.patients[0], "dischargeDate", dischargedAt)
  {
    var request := map["dischargeNotes" := Str("stable")];
    assert TemplateText(Get(request, "dischargeNotes")) == Some("stable");
    assert FindIndex(store.patients, "mrn", "A1") == 0;
    discharged := store.Discharge("A1", Some(request), noteId, dischargedAt, notedAt);
  }

  /** Create a patient, discharge it, list its notes: the patient starts
      Active, ends Discharged with a discharge date and its other fields kept,
      and exactly one note carries the discharge text. */
  method CreateDischargeList() returns (created: Response, discharged: Response, listed: Response)
    ensures created.statusCode == 201 && created.body.Item?
    ensures Keyed(created.body.record, "status", "Active")
    ensures discharged.statusCode == 200 && discharged.body.Item?
    ensures Keyed(discharged.body.record, "status", "Discharged")
    ensures Keyed(discharged.body.record, "dischargeDate", "2024-05-01T10:00:00.000Z")
    ensures Keyed(discharged.body.record, "name", "X") && Keyed(discharged.body.record, "specialty", "Cardiology")
    ensures listed.statusCode == 200 && listed.body.Items? && |listed.body.records| == 1
    ensures Keyed(listed.body.records[0], "note", DischargeNotePrefix + "stable")
    ensures Keyed(listed.body.records[0], "user", "System")
  {
    var store := new Store();
    created := Admit(store);
    discharged := DischargeA1(store, "id-1", "2024-05-01T10:00:00.000Z", "2024-05-01T10:00:00.001Z");
    listed := store.ListNotes("A1");
    var note := DischargeNote("id-1", "A1", "2024-05-01T10:00:00.001Z", "stable");
    assert Filter([note], "patientMrn", "A1") == [note];
  }

  /** Discharge has no guard on the current status: a second discharge
      succeeds too, overwrites the discharge date and appends a second note. */
  method DischargeTwice() returns (first: Response, second: Response, noteCount: nat)
    ensures first.statusCode == 200 && second.statusCode == 200
    ensures second.body.Item? && Keyed(second.body.record, "dischargeDate", "t2")
    ensures noteCount == 2
  {
    var store := new Store();
    var created := Admit(store);
    first := DischargeA1(store, "id-1", "t1", "t1");
    second := DischargeA1(store, "id-2", "t2", "t2");
    noteCount := |store.notes|;
  }

  /** PUT /patients/UNKNOWN reaches the update route with MRN "UNKNOWN". */
  lemma RouteUpdateUnknown()
    ensures Route("PUT", StripPrefix("/patients/UNKNOWN")) == UpdatePatient("UNKNOWN")
  {
    assert IsSegment("UNKNOWN") by {
      forall i | 0 <= i < |"UNKNOWN"| ensures IsWordChar("UNKNOWN"[i]) { }
    }
    RouteToUpdate("UNKNOWN");
    assert PatientsPrefix + "UNKNOWN" == "/patients/UNKNOWN";
    assert !(FunctionPrefix <= "/patients/UNKNOWN");
  }

  /** Under the corrected dispatch, updating an unknown MRN through the
      handler answers 404 "Patient not found" and changes nothing. */
  method UpdateUnknown() returns (resp: Response, patients: seq<Record>, notes: seq<Record>)
    ensures resp == Response(404, Error("Patient not found"))
    ensures patients == [Activated(Admission)] && notes == []
  {
    var store := new Store();
    var created := Admit(store);
    RouteUpdateUnknown();
    assert FindIndex(store.patients, "mrn", "UNKNOWN") == -1;
    resp := store.Handle(Event("PUT", "/patients/UNKNOWN", Some(map[])), false, "id-1", "t1", "t1");
    patients, notes := store.patients, store.notes;
  }

  /** The handler as written answers the same request with 404 "Not Found",
      whether or not the MRN is stored, and changes nothing. */
  method UpdateAsWritten(mrn: string) returns (resp: Response, patients: seq<Record>, notes: seq<Record>)
    requires IsSegment(mrn)
    ensures resp == Response(404, Error("Not Found"))
    ensures patients == [Activated(Admission)] && notes == []
  {
    var store := new Store();
    var created := Admit(store);
    RouteToUpdate(mrn);
    resp := store.Handle(Event("PUT", PatientsPrefix + mrn, Some(map[])), true, "id-1", "t1", "t1");
    patients, notes := store.patients, store.notes;
  }

  /** [c, n, c] de-duplicates to [c, n] when c differs from n. */
  lemma FirstOccurrences(c: Option<Value>, n: Option<Value>)
    requires IsPrimitive(c) && c != n
    ensures Distinct([c, n, c]) == [c, n]
  {
    var one, two, three := [c], [c, n], [c, n, c];
    assert one == [] + [c] && two == one + [n] && three == two + [c];
    DistinctSnoc([], c);
    assert Distinct(one) == one;
    DistinctSnoc(one, n);
    assert Distinct(two) == two;
    DistinctSnoc(two, c);
  }

  function WithSpecialty(name: string): Record
  {
    map["specialty" := Str(name)]
  }

  /** Three POST /patients on an empty store, with the given specialties. */
  method AdmitThree(store: Store, first: string, second: string, third: string)
    requires store.Valid() && store.patients == []
    modifies store
    ensures store.Valid()
    ensures store.patients ==
      [Activated(WithSpecialty(first)), Activated(WithSpecialty(second)), Activated(WithSpecialty(third))]
  {
    var r1 := store.CreatePatient(Some(WithSpecialty(first)));
    var r2 := store.CreatePatient(Some(WithSpecialty(second)));
    var r3 := store.CreatePatient(Some(WithSpecialty(third)));
  }

  /** Specialties of patients [Cardiology, Neurology, Cardiology] list as
      [Cardiology, Neurology]. */
  method SpecialtiesOfThree() returns (resp: Response)
    ensures resp == Response(200, Values([Some(Str("Cardiology")), Some(Str("Neurology"))]))
  {
    var store := new Store();
    AdmitThree(store, "Cardiology", "Neurology", "Cardiology");
    resp := store.ListSpecialties();
    var c, n := Some(Str("Cardiology")), Some(Str("Neurology"));
    assert SpecialtiesOf(store.patients) == [c, n, c];
    FirstOccurrences(c, n);
  }
}
