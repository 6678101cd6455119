/** The patient record, the request and response shapes of the patient
    service, its domain failures, and the text form of a patient id. */
module PatientModel {
  import opened Wrappers
  import opened CallLog

  /** A patient identifier. The repository hands out fresh ones from a
      counter (standing for a random UUID); only freshness matters. */
  datatype PatientId = PatientId(value: nat)

  /** The stored entity. `id` is `None` until the repository saves it. */
  datatype Patient = Patient(
    id: Option<PatientId>,
    name: string,
    email: string,
    dateOfBirth: string,
    address: string)

  /** What a caller sends to create or update a patient. */
  datatype PatientRequest = PatientRequest(
    name: string,
    email: string,
    dateOfBirth: string,
    address: string)

  /** What the service returns for a patient. The model renders the id
      through `IdText`, which `IdTextRoundTrip` proves loses nothing. */
  datatype PatientResponse = PatientResponse(
    id: string,
    name: string,
    email: string,
    address: string,
    dateOfBirth: string)

  /** The service's domain failures (exceptions in the Java code). */
  datatype PatientError =
    | EmailAlreadyExists(email: string)
    | PatientNotFound(id: PatientId)

  function DigitChar(d: nat): char
    requires d < 10
  {
    (48 + d) as char
  }

  /** Decimal digits of `n`, most significant first. */
  function Decimal(n: nat): (s: string)
    ensures |s| >= 1
    ensures forall i | 0 <= i < |s| :: '0' <= s[i] <= '9'
  {
    if n < 10 then [DigitChar(n)] else Decimal(n / 10) + [DigitChar(n % 10)]
  }

  /** The number a string of decimal digits denotes. */
  function ParseDecimal(s: string): nat
  {
    if s == [] then 0
    else
      var d := s[|s| - 1] as int - 48;
      ParseDecimal(s[..|s| - 1]) * 10 + (if 0 <= d < 10 then d else 0)
  }

  /** Reading the digits back gives the number: the text form loses nothing. */
  lemma {:induction false} DecimalRoundTrip(n: nat)
    ensures ParseDecimal(Decimal(n)) == n
  {
    var s := Decimal(n);
    if n < 10 {
      assert s[..|s| - 1] == [];
    } else {
      assert s[..|s| - 1] == Decimal(n / 10);
      DecimalRoundTrip(n / 10);
    }
  }

  /** The text form of an id. It is what the billing call receives
      (`patientId.toString()` in the Java code). The model also uses it for
      the id in a response. */
  function IdText(id: PatientId): string
  {
    Decimal(id.value)
  }

  /** The id named by a text form: the inverse of `IdText`, written for the
      proofs (`IdTextRoundTrip`, and finding a listed patient again). */
  function IdOfText(s: string): PatientId
  {
    PatientId(ParseDecimal(s))
  }

  /** An id survives the round trip through its text form, so distinct
      patients never share a text id. */
  lemma IdTextRoundTrip(id: PatientId)
    ensures IdOfText(IdText(id)) == id
    ensures forall other: PatientId :: IdText(other) == IdText(id) ==> other == id
  {
    DecimalRoundTrip(id.value);
    forall other: PatientId | IdText(other) == IdText(id)
      ensures other == id
    {
      DecimalRoundTrip(other.value);
    }
  }

  /** The entity built from a request: every field copied, id unset. */
  function ToModel(req: PatientRequest): Patient
  {
    Patient(None, req.name, req.email, req.dateOfBirth, req.address)
  }

  /** The response for a saved patient. */
  function ToResponse(p: Patient): PatientResponse
    requires p.id.Some?
  {
    PatientResponse(IdText(p.id.value), p.name, p.email, p.address, p.dateOfBirth)
  }

  /** Two saved patients with equal responses are the same patient. */
  lemma ToResponseInjective(p: Patient, q: Patient)
    requires p.id.Some? && q.id.Some?
    ensures ToResponse(p) == ToResponse(q) ==> p == q
  {
    IdTextRoundTrip(p.id.value);
  }

  /** One response per patient, in the same order, carrying its id, name
      and email. */
  function Responses(ps: seq<Patient>): (rs: seq<PatientResponse>)
    requires forall i | 0 <= i < |ps| :: ps[i].id.Some?
    ensures |rs| == |ps|
    ensures forall i | 0 <= i < |ps| ::
      rs[i].id == IdText(ps[i].id.value) && rs[i].name == ps[i].name && rs[i].email == ps[i].email
    ensures forall i | 0 <= i < |ps| :: rs[i] == ToResponse(ps[i])
  {
    if ps == [] then [] else [ToResponse(ps[0])] + Responses(ps[1..])
  }

  /** A patient's response occurs among the responses exactly as often as
      the patient occurs among the patients. */
  lemma {:induction false} TimesResponses(ps: seq<Patient>, p: Patient)
    requires forall i | 0 <= i < |ps| :: ps[i].id.Some?
    requires p.id.Some?
    ensures Times(Responses(ps), ToResponse(p)) == Times(ps, p)
  {
    if ps != [] {
      ToResponseInjective(ps[0], p);
      assert Responses(ps)[1..] == Responses(ps[1..]);
      TimesResponses(ps[1..], p);
    }
  }
}
