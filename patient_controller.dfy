/**
 * The patient controller of the server: the id lookups with their 404
 * outcome, e-mail de-duplication on creation (from a request and from an
 * inbound HL7 ADT message), the in-place medical-history merge, and the
 * reading of the remote clinic's acknowledgment after a referral.
 *
 * The document store is a map from id to patient record; each store call
 * is one atomic step on it. Express's `res.status(code).json(...)` and
 * `next(new ErrorHandler(message, code))` become the `Outcome` datatype.
 * The unseen helpers `filterObj`, `hl7ToJSON`, `correctParsedMessage` and
 * `buildHL7ADTMessage` enter as parameters: the filtered body itself, or a
 * function that answers `None` where the helper throws.
 */
module PatientController {
  import opened Wrappers
  import opened JsValues

  /** A document id; the store hands out ids it has never used. */
  type Id = nat

  /** The medical-history sub-document: field name to value. */
  type History = map<string, Value>

  datatype Patient = Patient(
    firstName: string,
    lastName: string,
    email: string,
    birthdate: string,
    phone: string,
    address: string,
    associatedDoctor: string,
    medicalHistory: Option<History>)

  /**
   * What `filterObj(body, "firstName", "lastName", "email", "birthdate",
   * "phone", "address", "associatedDoctor")` keeps: each of these fields,
   * when the request body has it.
   */
  datatype InfoUpdate = InfoUpdate(
    firstName: Option<string>,
    lastName: Option<string>,
    email: Option<string>,
    birthdate: Option<string>,
    phone: Option<string>,
    address: Option<string>,
    associatedDoctor: Option<string>)

  /** `new ErrorHandler(message, statusCode)` */
  datatype HttpError = HttpError(message: string, statusCode: nat)

  const NotFound := HttpError("No patient found with that ID", 404)
  const AlreadyExists := HttpError("Patient already exists", 400)
  const SendFailed := HttpError("Error sending message to clinic", 500)

  /** The `data` part of a success response; its `status` is always `"success"`. */
  datatype Body = PatientBody(patient: Patient) | MessageBody(message: string) | NoData

  /**
   * How a request ends: a response, an `ErrorHandler` passed to `next`, the
   * exception a helper threw in the handler body (which `AsyncErrorCatching`
   * passes to `next`), or an exception thrown inside the transport callback.
   */
  datatype Outcome =
    | Respond(statusCode: nat, body: Body)
    | Next(error: HttpError)
    | NextThrown
    | Crash(reason: string)

  /** An outcome together with the store after the request. */
  datatype Step = Step(outcome: Outcome, records: map<Id, Patient>)

  /** `Patient.findOne({email})` finds a record. */
  predicate EmailTaken(records: map<Id, Patient>, email: string) {
    exists id :: id in records && records[id].email == email
  }

  /** No two records share an e-mail address. */
  predicate UniqueEmails(records: map<Id, Patient>) {
    forall a, b :: a in records && b in records && records[a].email == records[b].email ==> a == b
  }

  // ---------------------------------------------------------------------
  // createPatient

  /**
   * `createPatient`: an e-mail already on record is a 400 and nothing is
   * stored; otherwise exactly the body is added under a fresh id and
   * nothing else changes.
   */
  function CreatePatientStep(records: map<Id, Patient>, newId: Id, body: Patient): (s: Step)
    requires newId !in records
    ensures EmailTaken(records, body.email) ==> s == Step(Next(AlreadyExists), records)
    ensures !EmailTaken(records, body.email) ==>
              && s.outcome == Respond(201, PatientBody(body))
              && s.records.Keys == records.Keys + {newId}
              && s.records[newId] == body
              && forall id :: id in records ==> s.records[id] == records[id]
    ensures UniqueEmails(records) ==> UniqueEmails(s.records)
  {
    if EmailTaken(records, body.email) then Step(Next(AlreadyExists), records)
    else Step(Respond(201, PatientBody(body)), records[newId := body])
  }

  // ---------------------------------------------------------------------
  // updatePatientInfo

  function Or(o: Option<string>, default: string): string {
    if o.Some? then o.value else default
  }

  /** `findByIdAndUpdate(id, filteredBody)` on one record: the given fields are overwritten. */
  function ApplyInfo(p: Patient, u: InfoUpdate): (q: Patient)
    ensures q.medicalHistory == p.medicalHistory
  {
    Patient(
      Or(u.firstName, p.firstName), Or(u.lastName, p.lastName), Or(u.email, p.email),
      Or(u.birthdate, p.birthdate), Or(u.phone, p.phone), Or(u.address, p.address),
      Or(u.associatedDoctor, p.associatedDoctor), p.medicalHistory)
  }

  /** Applying the same update twice is applying it once; an empty update changes nothing. */
  lemma ApplyInfoIdempotent(p: Patient, u: InfoUpdate)
    ensures ApplyInfo(ApplyInfo(p, u), u) == ApplyInfo(p, u)
    ensures u == InfoUpdate(None, None, None, None, None, None, None) ==> ApplyInfo(p, u) == p
  {
  }

  /**
   * `updatePatientInfo`: an absent id is a 404 and nothing changes;
   * otherwise only that record changes and the response carries it as
   * updated (`new: true`).
   */
  function UpdateInfoStep(records: map<Id, Patient>, id: Id, u: InfoUpdate): (s: Step)
    ensures s.records.Keys == records.Keys
    ensures forall k :: k in records && k != id ==> s.records[k] == records[k]
    ensures id !in records ==> s == Step(Next(NotFound), records)
    ensures id in records ==>
              s.records[id] == ApplyInfo(records[id], u) && s.outcome == Respond(200, PatientBody(s.records[id]))
  {
    if id !in records then Step(Next(NotFound), records)
    else
      var updated := ApplyInfo(records[id], u);
      Step(Respond(200, PatientBody(updated)), records[id := updated])
  }

  /**
   * `updatePatientInfo` does not look at other records' e-mails: an update
   * can give two records the same address.
   */
  lemma UpdateInfoCanDuplicateEmail()
    ensures exists records: map<Id, Patient>, id: Id, u: InfoUpdate ::
              UniqueEmails(records) && !UniqueEmails(UpdateInfoStep(records, id, u).records)
  {
    var a := Patient("A", "A", "a@x", "", "", "", "", None);
    var b := Patient("B", "B", "b@x", "", "", "", "", None);
    var records := map[0 := a, 1 := b];
    var u := InfoUpdate(None, None, Some("a@x"), None, None, None, None);
    var after := UpdateInfoStep(records, 1, u).records;
    assert after[0].email == after[1].email;
    assert !UniqueEmails(after);
  }

  // ---------------------------------------------------------------------
  // updatePatientMedicalHistory

  /**
   * The `keys.forEach` loop after the first `|entries|` keys: a key is
   * written only when the sub-document exists and its current value is
   * truthy. `entries` are the filtered body's own properties, in order.
   */
  function MergeHistory(history: Option<History>, entries: seq<(string, Value)>): (r: Option<History>)
    ensures r.None? <==> history.None?
    ensures r.Some? ==> r.value.Keys == history.value.Keys
    decreases |entries|
  {
    if entries == [] then history
    else
      var h := MergeHistory(history, entries[..|entries| - 1]);
      var key := entries[|entries| - 1].0;
      if h.Some? && Truthy(Get(h.value, key)) then Some(h.value[key := entries[|entries| - 1].1]) else h
  }

  /** The keys of a JavaScript object are distinct. */
  predicate DistinctKeys(entries: seq<(string, Value)>) {
    forall i, j :: 0 <= i < j < |entries| ==> entries[i].0 != entries[j].0
  }

  /** `body[key]` for an object given by its entries. */
  function ValueFor(entries: seq<(string, Value)>, key: string): (r: Option<Value>)
    ensures r.Some? ==> (key, r.value) in entries
    ensures r.None? ==> forall i :: 0 <= i < |entries| ==> entries[i].0 != key
    decreases |entries|
  {
    if entries == [] then None
    else if entries[|entries| - 1].0 == key then Some(entries[|entries| - 1].1)
    else ValueFor(entries[..|entries| - 1], key)
  }

  /**
   * Key by key, the merge overwrites a field exactly when the body has it
   * and its current value is truthy; fields whose value is falsy, and
   * fields the body does not name, keep their value. No field is added.
   */
  lemma {:induction false} MergeHistoryAt(m: History, entries: seq<(string, Value)>, key: string)
    requires DistinctKeys(entries)
    ensures MergeHistory(Some(m), entries).Some?
    ensures MergeHistory(Some(m), entries).value.Keys == m.Keys
    ensures key in m ==>
              var v := ValueFor(entries, key);
              MergeHistory(Some(m), entries).value[key] == if Truthy(m[key]) && v.Some? then v.value else m[key]
    decreases |entries|
  {
    if entries != [] {
      var n := |entries|;
      var prefix := entries[..n - 1];
      assert DistinctKeys(prefix) by {
        forall i, j | 0 <= i < j < |prefix| ensures prefix[i].0 != prefix[j].0 {
          assert prefix[i] == entries[i] && prefix[j] == entries[j];
        }
      }
      MergeHistoryAt(m, prefix, key);
    }
  }

  /** Without a medical-history sub-document nothing is written. */
  lemma MergeWithoutHistory(entries: seq<(string, Value)>)
    ensures MergeHistory(None, entries) == None
  {
  }

  /**
   * `updatePatientMedicalHistory`: an absent id is a 404 and nothing
   * changes; otherwise only that record's medical history changes, by the
   * merge, and the response carries the saved record.
   */
  function MedicalHistoryStep(records: map<Id, Patient>, id: Id, entries: seq<(string, Value)>): (s: Step)
    ensures s.records.Keys == records.Keys
    ensures forall k :: k in records && k != id ==> s.records[k] == records[k]
    ensures id !in records ==> s == Step(Next(NotFound), records)
    ensures id in records ==>
              && s.records[id].(medicalHistory := records[id].medicalHistory) == records[id]
              && s.records[id].medicalHistory == MergeHistory(records[id].medicalHistory, entries)
              && s.outcome == Respond(200, PatientBody(s.records[id]))
  {
    if id !in records then Step(Next(NotFound), records)
    else
      var p := records[id];
      var saved := p.(medicalHistory := MergeHistory(p.medicalHistory, entries));
      Step(Respond(200, PatientBody(saved)), records[id := saved])
  }

  // ---------------------------------------------------------------------
  // deletePatient

  /**
   * `deletePatient`: an absent id is a 404 and nothing changes; otherwise
   * exactly that record is removed and the answer is 204.
   */
  function DeleteStep(records: map<Id, Patient>, id: Id): (s: Step)
    ensures s.records.Keys == records.Keys - {id}
    ensures forall k :: k in s.records ==> s.records[k] == records[k]
    ensures id !in records ==> s == Step(Next(NotFound), records)
    ensures id in records ==> s.outcome == Respond(204, NoData)
  {
    if id !in records then Step(Next(NotFound), records)
    else Step(Respond(204, NoData), records - {id})
  }

  /** The three id-based requests that change the store answer an absent id with 404 and leave the store as it was. */
  lemma AbsentIdIsNotFound(records: map<Id, Patient>, id: Id, u: InfoUpdate, entries: seq<(string, Value)>)
    requires id !in records
    ensures UpdateInfoStep(records, id, u) == Step(Next(NotFound), records)
    ensures MedicalHistoryStep(records, id, entries) == Step(Next(NotFound), records)
    ensures DeleteStep(records, id) == Step(Next(NotFound), records)
  {
  }

  // ---------------------------------------------------------------------
  // referPatientToAnotherClinic: the acknowledgment

  /** A field of an HL7 v2 segment, as its text. */
  datatype Field = Field(value: string)

  /** An HL7 v2 segment: its name (`MSH`, `MSA`, `ERR`, ...) and its fields. */
  datatype Segment = Segment(name: string, fields: seq<Field>)

  /** The acknowledgment message the remote clinic sends back. */
  datatype Ack = Ack(segments: seq<Segment>)

  /** The success message of a referral. */
  function ReferredMessage(firstName: string, clinicId: string): string {
    "Patient " + firstName + " has been referred to clinic " + clinicId + " successfully."
  }

  /** `ack.segments[1] && ack.segments[1].name === "ERR"`: only the second segment is looked at. */
  predicate RejectedAt1(ack: Ack) {
    |ack.segments| > 1 && ack.segments[1].name == "ERR"
  }

  /**
   * The transport callback `(err, ack)`: a transport error is a 500
   * "Error sending message to clinic"; an `ERR` segment in second place is
   * a 500 carrying its first field's text verbatim (and a crash when it has
   * no field); anything else is a success naming the patient and the clinic.
   */
  function AckOutcome(sendError: Option<string>, ack: Ack, firstName: string, clinicId: string): (o: Outcome)
    ensures sendError.Some? ==> o == Next(SendFailed)
    ensures sendError.None? && RejectedAt1(ack) && ack.segments[1].fields != [] ==>
              o == Next(HttpError(ack.segments[1].fields[0].value, 500))
    ensures sendError.None? && RejectedAt1(ack) && ack.segments[1].fields == [] ==> o.Crash?
    ensures o.Respond? <==> sendError.None? && !RejectedAt1(ack)
    ensures o.Respond? ==> o == Respond(200, MessageBody(ReferredMessage(firstName, clinicId)))
    ensures o.Next? ==> o.error.statusCode == 500
  {
    if sendError.Some? then Next(SendFailed)
    else if RejectedAt1(ack) then
      if ack.segments[1].fields == [] then Crash("fields[0] is undefined")
      else Next(HttpError(ack.segments[1].fields[0].value, 500))
    else Respond(200, MessageBody(ReferredMessage(firstName, clinicId)))
  }

  /** The outcome depends on the acknowledgment only through its second segment. */
  lemma AckOnlySecondSegmentMatters(sendError: Option<string>, a: Ack, b: Ack, firstName: string, clinicId: string)
    requires |a.segments| > 1 <==> |b.segments| > 1
    requires |a.segments| > 1 ==> a.segments[1] == b.segments[1]
    ensures AckOutcome(sendError, a, firstName, clinicId) == AckOutcome(sendError, b, firstName, clinicId)
  {
  }

  /** An `ERR` segment anywhere but second place does not stop a success. */
  lemma AckErrElsewhereIsSuccess()
    ensures AckOutcome(None, Ack([Segment("MSH", []), Segment("MSA", [Field("AE")]), Segment("ERR", [Field("Unknown facility")])]), "John", "2")
            == Respond(200, MessageBody(ReferredMessage("John", "2")))
  {
    assert "ERR" != "MSA";
  }

  /** A rejection carries the remote text verbatim. */
  lemma AckRejectionExample()
    ensures AckOutcome(None, Ack([Segment("MSA", [Field("AE")]), Segment("ERR", [Field("Unknown facility")])]), "John", "2")
            == Next(HttpError("Unknown facility", 500))
  {
  }

  // ---------------------------------------------------------------------
  // handleReceivedHL7Message

  /** The listener's `data`: sender facility, message type and the message, if any. */
  datatype Inbound = Inbound(facility: string, msgType: string, msg: Option<string>)

  /** What `hl7ToJSON` makes of a message; only the e-mail is read here. */
  datatype Parsed = Parsed(email: string, fields: map<string, string>)

  /**
   * How the handler ends: returns nothing, throws an `ErrorHandler`, rejects
   * with the exception a parsing helper threw, or returns a status object.
   */
  datatype InboundOutcome = Skipped | Threw(error: HttpError) | HelperThrew | Returned(status: string, message: string)

  datatype InboundStep = InboundStep(outcome: InboundOutcome, records: map<Id, Patient>)

  /**
   * `handleReceivedHL7Message`: a message that is not `ADT`, or has no
   * payload, is ignored; a parsed e-mail already on record throws
   * "Patient already exists" (400) and nothing is stored; otherwise exactly
   * one record, the corrected parse, is added. The duplicate check uses the
   * e-mail before correction. `hl7ToJson` and `correct` answer `None` where
   * `hl7ToJSON` or `correctParsedMessage` throws; the handler then rejects
   * with that exception and nothing is stored.
   */
  function HandleReceivedStep(
    records: map<Id, Patient>, newId: Id, data: Inbound,
    hl7ToJson: string -> Option<Parsed>, correct: Parsed -> Option<Patient>): (s: InboundStep)
    requires newId !in records
    ensures data.msgType != "ADT" || data.msg.None? ==> s == InboundStep(Skipped, records)
    ensures data.msgType == "ADT" && data.msg.Some? && hl7ToJson(data.msg.value).None? ==>
              s == InboundStep(HelperThrew, records)
    ensures data.msgType == "ADT" && data.msg.Some? && hl7ToJson(data.msg.value).Some? ==>
              var parsed := hl7ToJson(data.msg.value).value;
              && (EmailTaken(records, parsed.email) ==> s == InboundStep(Threw(AlreadyExists), records))
              && (!EmailTaken(records, parsed.email) && correct(parsed).None? ==> s == InboundStep(HelperThrew, records))
              && (!EmailTaken(records, parsed.email) && correct(parsed).Some? ==>
                    && s.outcome == Returned("success", "Patient created successfully")
                    && s.records.Keys == records.Keys + {newId}
                    && s.records[newId] == correct(parsed).value
                    && forall id :: id in records ==> s.records[id] == records[id])
    ensures !s.outcome.Returned? ==> s.records == records
  {
    if data.msgType != "ADT" then InboundStep(Skipped, records)
    else if data.msg.None? then InboundStep(Skipped, records)
    else
      var parsed := hl7ToJson(data.msg.value);
      if parsed.None? then InboundStep(HelperThrew, records)
      else if EmailTaken(records, parsed.value.email) then InboundStep(Threw(AlreadyExists), records)
      else
        var corrected := correct(parsed.value);
        if corrected.None? then InboundStep(HelperThrew, records)
        else InboundStep(Returned("success", "Patient created successfully"), records[newId := corrected.value])
  }

  /** Whether correcting the parse of `msg` keeps the e-mail (or one of the helpers throws). */
  predicate CorrectionKeepsEmail(msg: string, hl7ToJson: string -> Option<Parsed>, correct: Parsed -> Option<Patient>) {
    hl7ToJson(msg).Some? && correct(hl7ToJson(msg).value).Some? ==>
      correct(hl7ToJson(msg).value).value.email == hl7ToJson(msg).value.email
  }

  /** When correction keeps the e-mail, inbound messages keep e-mails unique. */
  lemma HandleReceivedKeepsEmailsUnique(
    records: map<Id, Patient>, newId: Id, data: Inbound,
    hl7ToJson: string -> Option<Parsed>, correct: Parsed -> Option<Patient>)
    requires newId !in records && UniqueEmails(records)
    requires data.msg.Some? ==> CorrectionKeepsEmail(data.msg.value, hl7ToJson, correct)
    ensures UniqueEmails(HandleReceivedStep(records, newId, data, hl7ToJson, correct).records)
  {
    var s := HandleReceivedStep(records, newId, data, hl7ToJson, correct);
    if s.outcome.Returned? {
      forall a, b | a in s.records && b in s.records && s.records[a].email == s.records[b].email
        ensures a == b
      {
      }
    }
  }

  /**
   * Because the check reads the e-mail before `correctParsedMessage`, a
   * correction that turns a free address into one already on record is
   * stored anyway, and two records then share that address.
   */
  lemma HandleReceivedChecksUncorrectedEmail(
    records: map<Id, Patient>, newId: Id, data: Inbound,
    hl7ToJson: string -> Option<Parsed>, correct: Parsed -> Option<Patient>)
    requires newId !in records && data.msgType == "ADT" && data.msg.Some?
    requires hl7ToJson(data.msg.value).Some?
    requires !EmailTaken(records, hl7ToJson(data.msg.value).value.email)
    requires correct(hl7ToJson(data.msg.value).value).Some?
    requires EmailTaken(records, correct(hl7ToJson(data.msg.value).value).value.email)
    ensures HandleReceivedStep(records, newId, data, hl7ToJson, correct).outcome.Returned?
    ensures !UniqueEmails(HandleReceivedStep(records, newId, data, hl7ToJson, correct).records)
  {
    var stored := correct(hl7ToJson(data.msg.value).value).value;
    var id :| id in records && records[id].email == stored.email;
    var after := HandleReceivedStep(records, newId, data, hl7ToJson, correct).records;
    assert after[newId] == stored && after[id] == records[id];
    assert id != newId;
  }

  // ---------------------------------------------------------------------
  // The store and the request handlers

  /** The patient collection, updated in place by the handlers. */
  class PatientStore {
    var records: map<Id, Patient>
    var nextId: Id

    /** Every id in use was handed out before `nextId`. */
    ghost predicate Valid()
      reads this
    {
      forall id :: id in records ==> id < nextId
    }

    constructor ()
      ensures Valid() && records == map[]
    {
      records := map[];
      nextId := 0;
    }

    /** `Patient.findById(id)` */
    method FindById(id: Id) returns (p: Option<Patient>)
      ensures p.Some? <==> id in records
      ensures p.Some? ==> p.value == records[id]
    {
      if id in records {
        p := Some(records[id]);
      } else {
        p := None;
      }
    }

    /** `Patient.findOne({email})` */
    method FindOne(email: string) returns (p: Option<Patient>)
      ensures p.Some? <==> EmailTaken(records, email)
      ensures p.Some? ==> p.value.email == email && p.value in records.Values
    {
      if EmailTaken(records, email) {
        var id :| id in records && records[id].email == email;
        p := Some(records[id]);
      } else {
        p := None;
      }
    }

    /** `Patient.create(record)` under a fresh id. */
    method Create(record: Patient)
      requires Valid()
      modifies this
      ensures Valid()
      ensures old(nextId) !in old(records) && records == old(records)[old(nextId) := record]
      ensures nextId == old(nextId) + 1
    {
      records := records[nextId := record];
      nextId := nextId + 1;
    }

    /** `getPatient` */
    method GetPatient(id: Id) returns (o: Outcome)
      ensures id in records ==> o == Respond(200, PatientBody(records[id]))
      ensures id !in records ==> o == Next(NotFound)
    {
      var patient := FindById(id);
      if patient.None? {
        return Next(NotFound);
      }
      o := Respond(200, PatientBody(patient.value));
    }

    /** `createPatient` */
    method CreatePatient(body: Patient) returns (o: Outcome)
      requires Valid()
      modifies this
      ensures Valid() && nextId >= old(nextId)
      ensures Step(o, records) == CreatePatientStep(old(records), old(nextId), body)
    {
      var patient := FindOne(body.email);
      if patient.Some? {
        return Next(AlreadyExists);
      }
      Create(body);
      o := Respond(201, PatientBody(body));
    }

    /** `updatePatientInfo`: `findByIdAndUpdate` with `new: true`. */
    method UpdatePatientInfo(id: Id, filteredBody: InfoUpdate) returns (o: Outcome)
      requires Valid()
      modifies this
      ensures Valid() && nextId == old(nextId)
      ensures Step(o, records) == UpdateInfoStep(old(records), id, filteredBody)
    {
      if id !in records {
        return Next(NotFound);
      }
      records := records[id := ApplyInfo(records[id], filteredBody)];
      o := Respond(200, PatientBody(records[id]));
    }

    /**
     * `updatePatientMedicalHistory`: the record is read, its medical history
     * is changed key by key, and the record is saved.
     */
    method UpdatePatientMedicalHistory(id: Id, filteredBody: seq<(string, Value)>) returns (o: Outcome)
      requires Valid()
      modifies this
      ensures Valid() && nextId == old(nextId)
      ensures Step(o, records) == MedicalHistoryStep(old(records), id, filteredBody)
    {
      var found := FindById(id);
      if found.None? {
        return Next(NotFound);
      }
      var patient := found.value;
      ghost var original := patient;
      var i := 0;
      while i < |filteredBody|
        invariant 0 <= i <= |filteredBody|
        invariant patient == original.(medicalHistory := MergeHistory(original.medicalHistory, filteredBody[..i]))
      {
        var key := filteredBody[i].0;
        if patient.medicalHistory.Some? && Truthy(Get(patient.medicalHistory.value, key)) {
          patient := patient.(medicalHistory := Some(patient.medicalHistory.value[key := filteredBody[i].1]));
        }
        assert filteredBody[..i + 1][..i] == filteredBody[..i];
        i := i + 1;
      }
      assert filteredBody[..i] == filteredBody;
      records := records[id := patient];
      o := Respond(200, PatientBody(patient));
    }

    /** `deletePatient`: `findByIdAndDelete`. */
    method DeletePatient(id: Id) returns (o: Outcome)
      requires Valid()
      modifies this
      ensures Valid() && nextId == old(nextId)
      ensures Step(o, records) == DeleteStep(old(records), id)
    {
      if id !in records {
        return Next(NotFound);
      }
      records := records - {id};
      o := Respond(204, NoData);
    }

    /**
     * `referPatientToAnotherClinic`: the record is looked up and the message
     * is built by `build` (`None` where `buildHL7ADTMessage` throws; the
     * error then goes to `next` and nothing is sent). Otherwise the message
     * is sent and the callback's `(err, ack)` decides the outcome.
     */
    method ReferPatientToAnotherClinic(
      id: Id, clinicId: string, build: Patient -> Option<string>, sendError: Option<string>, ack: Ack)
      returns (o: Outcome)
      ensures id !in records ==> o == Next(NotFound)
      ensures id in records && build(records[id]).None? ==> o == NextThrown
      ensures id in records && build(records[id]).Some? ==>
                o == AckOutcome(sendError, ack, records[id].firstName, clinicId)
    {
      var patient := FindById(id);
      if patient.None? {
        return Next(NotFound);
      }
      var message := build(patient.value);
      if message.None? {
        return NextThrown;
      }
      o := AckOutcome(sendError, ack, patient.value.firstName, clinicId);
    }

    /** `handleReceivedHL7Message` */
    method HandleReceivedHL7Message(data: Inbound, hl7ToJson: string -> Option<Parsed>, correct: Parsed -> Option<Patient>)
      returns (o: InboundOutcome)
      requires Valid()
      modifies this
      ensures Valid() && nextId >= old(nextId)
      ensures InboundStep(o, records) == HandleReceivedStep(old(records), old(nextId), data, hl7ToJson, correct)
    {
      if data.msgType != "ADT" {
        return Skipped;
      }
      if data.msg.None? {
        return Skipped;
      }
      var parsed := hl7ToJson(data.msg.value);
      if parsed.None? {
        return HelperThrew;
      }
      var patient := FindOne(parsed.value.email);
      if patient.Some? {
        return Threw(AlreadyExists);
      }
      var corrected := correct(parsed.value);
      if corrected.None? {
        return HelperThrew;
      }
      Create(corrected.value);
      o := Returned("success", "Patient created successfully");
    }
  }
}
