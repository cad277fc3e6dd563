/** The serverless handler's in-memory store of patients and notes, the
    operation behind each route, and the handler that dispatches a request
    to them. A request body is `None` when parsing it fails. */
module Api {
  import opened Json
  import opened Router
  import opened Records

  /** A response body before it is serialised. */
  datatype Body =
    | Items(records: seq<Record>)
    | Item(record: Record)
    | Values(values: seq<Option<Value>>)
    | Error(message: string)

  datatype Response = Response(statusCode: int, body: Body)

  /** The parts of an incoming event the handler reads. */
  datatype Event = Event(httpMethod: string, path: string, body: Option<Record>)

  const NotFound := Response(404, Error("Not Found"))
  const PatientNotFound := Response(404, Error("Patient not found"))
  const InternalError := Response(500, Error("Internal Server Error"))

  /** Whether the route parses the request body before anything else. */
  predicate ParsesBody(route: Endpoint)
  {
    route.CreatePatient? || route.CreateNote? || route.UpdatePatient? || route.Discharge?
  }

  /** The two module-level arrays of the handler. */
  class Store {
    var patients: seq<Record>
    var notes: seq<Record>

    /** Every stored patient has a status and every stored note an id. */
    ghost predicate Valid()
      reads this
    {
      (forall p :: p in patients ==> "status" in p) &&
      (forall n :: n in notes ==> "id" in n)
    }

    constructor ()
      ensures Valid() && patients == [] && notes == []
    {
      patients := [];
      notes := [];
    }

    /** GET /patients: every listed patient has a status. */
    method ListPatients() returns (resp: Response)
      requires Valid()
      ensures resp == Response(200, Items(patients))
      ensures forall p :: p in resp.body.records ==> "status" in p
    {
      resp := Response(200, Items(patients));
    }

    /** POST /patients */
    method CreatePatient(body: Option<Record>) returns (resp: Response)
      requires Valid()
      modifies this
      ensures Valid()
      ensures body.None? ==> resp == InternalError && patients == old(patients) && notes == old(notes)
      ensures body.Some? ==>
        patients == old(patients) + [Activated(body.value)] && notes == old(notes) &&
        resp == Response(201, Item(Activated(body.value)))
    {
      if body.None? {
        return InternalError;
      }
      var patient := Activated(body.value);
      patients := patients + [patient];
      resp := Response(201, Item(patient));
    }

    /** PUT /patients/{mrn}: shallow merge into the first patient with that MRN. */
    method UpdatePatient(mrn: string, body: Option<Record>) returns (resp: Response)
      requires Valid()
      modifies this
      ensures Valid()
      ensures notes == old(notes)
      ensures body.None? ==> resp == InternalError && patients == old(patients)
      ensures body.Some? && FindIndex(old(patients), "mrn", mrn) == -1 ==>
        resp == PatientNotFound && patients == old(patients)
      ensures body.Some? && FindIndex(old(patients), "mrn", mrn) >= 0 ==>
        var i := FindIndex(old(patients), "mrn", mrn);
        patients == old(patients)[i := Merge(old(patients)[i], body.value)] &&
        resp == Response(200, Item(patients[i]))
    {
      if body.None? {
        return InternalError;
      }
      var i := FindIndex(patients, "mrn", mrn);
      if i != -1 {
        patients := patients[i := Merge(patients[i], body.value)];
        return Response(200, Item(patients[i]));
      }
      resp := PatientNotFound;
    }

    /** GET /patients/{mrn}/notes: every listed note has an id. */
    method ListNotes(mrn: string) returns (resp: Response)
      requires Valid()
      ensures resp == Response(200, Items(Filter(notes, "patientMrn", mrn)))
      ensures forall n :: n in resp.body.records ==> "id" in n
    {
      resp := Response(200, Items(Filter(notes, "patientMrn", mrn)));
    }

    /** POST /notes */
    method CreateNote(body: Option<Record>, id: string) returns (resp: Response)
      requires Valid()
      modifies this
      ensures Valid()
      ensures patients == old(patients)
      ensures body.None? ==> resp == InternalError && notes == old(notes)
      ensures body.Some? ==>
        notes == old(notes) + [WithId(body.value, id)] &&
        resp == Response(201, Item(WithId(body.value, id)))
    {
      if body.None? {
        return InternalError;
      }
      var note := WithId(body.value, id);
      notes := notes + [note];
      resp := Response(201, Item(note));
    }

    /** POST /patients/{mrn}/discharge. The patient is replaced before the note
        text is built, so a note text whose conversion throws leaves the
        patient discharged, no note appended, and a 500 response. */
    method Discharge(mrn: string, body: Option<Record>, noteId: string,
                     dischargedAt: string, notedAt: string) returns (resp: Response)
      requires Valid()
      modifies this
      ensures Valid()
      ensures body.None? ==> resp == InternalError && patients == old(patients) && notes == old(notes)
      ensures body.Some? && FindIndex(old(patients), "mrn", mrn) == -1 ==>
        resp == PatientNotFound && patients == old(patients) && notes == old(notes)
      ensures body.Some? && FindIndex(old(patients), "mrn", mrn) >= 0 ==>
        var i := FindIndex(old(patients), "mrn", mrn);
        var text := TemplateText(Get(body.value, "dischargeNotes"));
        patients == old(patients)[i := Discharged(old(patients)[i], dischargedAt)] &&
        (text.Some? ==>
          notes == old(notes) + [DischargeNote(noteId, mrn, notedAt, text.value)] &&
          resp == Response(200, Item(patients[i]))) &&
        (text.None? ==> notes == old(notes) && resp == InternalError)
    {
      if body.None? {
        return InternalError;
      }
      var i := FindIndex(patients, "mrn", mrn);
      if i == -1 {
        return PatientNotFound;
      }
      patients := patients[i := Discharged(patients[i], dischargedAt)];
      var text := TemplateText(Get(body.value, "dischargeNotes"));
      if text.None? {
        return InternalError;
      }
      notes := notes + [DischargeNote(noteId, mrn, notedAt, text.value)];
      resp := Response(200, Item(patients[i]));
    }

    /** GET /specialties */
    method ListSpecialties() returns (resp: Response)
      ensures resp == Response(200, Values(Distinct(SpecialtiesOf(patients))))
    {
      resp := Response(200, Values(Distinct(SpecialtiesOf(patients))));
    }

    /** The handler: strip the function prefix, pick the route, run it.
        `asWritten` selects the `switch (true)` dispatch as the source has it,
        which sends every parametric request to the default 404; otherwise
        the corrected dispatch `Route` is used. `freshId` is the value
        `uuidv4()` yields; `dischargedAt` and `notedAt` are the two clock
        readings the discharge takes. */
    method Handle(event: Event, asWritten: bool, freshId: string, dischargedAt: string, notedAt: string)
      returns (resp: Response)
      requires Valid()
      modifies this
      ensures Valid()
      ensures var route := Route(event.httpMethod, StripPrefix(event.path));
        (asWritten && IsParametric(route) ==> resp == NotFound && patients == old(patients) && notes == old(notes)) &&
        (route.NoRoute? ==> resp == NotFound && patients == old(patients) && notes == old(notes)) &&
        (ParsesBody(route) && !(asWritten && IsParametric(route)) && event.body.None? ==>
          resp == InternalError && patients == old(patients) && notes == old(notes)) &&
        (route.ListPatients? ==> resp == Response(200, Items(patients)) && patients == old(patients) && notes == old(notes)) &&
        (route.Specialties? ==>
          resp == Response(200, Values(Distinct(SpecialtiesOf(patients)))) && patients == old(patients) && notes == old(notes))
      ensures var route := Route(event.httpMethod, StripPrefix(event.path));
        route.CreatePatient? && event.body.Some? ==>
          patients == old(patients) + [Activated(event.body.value)] && notes == old(notes) &&
          resp == Response(201, Item(Activated(event.body.value)))
      ensures var route := Route(event.httpMethod, StripPrefix(event.path));
        route.CreateNote? && event.body.Some? ==>
          notes == old(notes) + [WithId(event.body.value, freshId)] && patients == old(patients) &&
          resp == Response(201, Item(WithId(event.body.value, freshId)))
      ensures var route := Route(event.httpMethod, StripPrefix(event.path));
        !asWritten && route.ListNotes? ==>
          resp == Response(200, Items(Filter(notes, "patientMrn", route.mrn))) && patients == old(patients) && notes == old(notes)
      ensures var route := Route(event.httpMethod, StripPrefix(event.path));
        !asWritten && route.UpdatePatient? && event.body.Some? ==>
          var i := FindIndex(old(patients), "mrn", route.mrn);
          notes == old(notes) &&
          (i == -1 ==> resp == PatientNotFound && patients == old(patients)) &&
          (i >= 0 ==>
            patients == old(patients)[i := Merge(old(patients)[i], event.body.value)] &&
            resp == Response(200, Item(patients[i])))
      ensures var route := Route(event.httpMethod, StripPrefix(event.path));
        !asWritten && route.Discharge? && event.body.Some? ==>
          var i := FindIndex(old(patients), "mrn", route.mrn);
          var text := TemplateText(Get(event.body.value, "dischargeNotes"));
          (i == -1 ==> resp == PatientNotFound && patients == old(patients) && notes == old(notes)) &&
          (i >= 0 ==>
            patients == old(patients)[i := Discharged(old(patients)[i], dischargedAt)] &&
            (text.Some? ==>
              notes == old(notes) + [DischargeNote(freshId, route.mrn, notedAt, text.value)] &&
              resp == Response(200, Item(patients[i]))) &&
            (text.None? ==> notes == old(notes) && resp == InternalError))
    {
      var path := StripPrefix(event.path);
      AsWrittenDispatch(event.httpMethod, path);
      var route := if asWritten then RouteAsWritten(event.httpMethod, path) else Route(event.httpMethod, path);
      match route {
        case ListPatients => resp := ListPatients();
        case CreatePatient => resp := CreatePatient(event.body);
        case UpdatePatient(mrn) => resp := UpdatePatient(mrn, event.body);
        case ListNotes(mrn) => resp := ListNotes(mrn);
        case CreateNote => resp := CreateNote(event.body, freshId);
        case Discharge(mrn) => resp := Discharge(mrn, event.body, freshId, dischargedAt, notedAt);
        case Specialties => resp := ListSpecialties();
        case NoRoute => resp := NotFound;
      }
    }
  }
}
