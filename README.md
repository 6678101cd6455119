# Patient management: service contracts in Dafny

This project models two services of a patient management system, as their
unit tests pin them down.

- **The patient service (`PatientService`)** keeps a registry of patients.
  Each patient has an id, a name, an email, a date of birth and an address.
  The service lists, creates, updates and deletes patients through a
  patient repository. On create it also asks the billing service for a
  billing account and publishes a Kafka event.
- **The authentication service (`AuthService`)** checks a login.
  `authenticate` looks up the user, matches the password, then issues a
  token. `validateToken` turns a token validator that may throw into a
  yes/no answer.

The tests work through mocks. They check which collaborator calls happen,
how often and with which arguments. The model makes each collaborator a
fake that records every call in a log. A test's `verify(mock, times(n))` becomes
a statement about a count over a log: `CallLog.Times` counts exact calls,
and `PatientRepository.SaveCount` counts `save` calls whatever their
argument.

## Layout

- `wrappers.dfy`: `Option` and `Result`.
- `call_log.dfy`: counting calls in a log.
- `patient_model.dfy`: the patient entity, request and response; the
  mappers between them (`ToModel`, `ToResponse`, `Responses`); the text form
  of an id and its inverse; the domain errors `EmailAlreadyExists` and
  `PatientNotFound`.
- `patient_repository.dfy`: the repository as pure functions on a `Store`
  value, plus the `Repository` class. `Repository` is the fake; it keeps
  the store in fields and logs every call.
- `billing_client.dfy`, `kafka_producer.dfy`: fakes of the billing gRPC
  client and the Kafka producer. Each only logs its calls.
- `patient_service.dfy`: each service operation as a function from the
  collaborators' state (`World`) to the state after the call and the
  result. The lemmas state what the tests verify and the invariants each
  operation keeps. The class `PatientService` runs each operation against
  the fakes, and each method is proved to match its function.
- `auth_service.dfy`: `authenticate` and `validateToken` as functions. The
  collaborators (user lookup, password matcher, token generator, token
  validator) are function parameters. Each result also records the calls
  made to each collaborator.

## Model

| member | source | states |
|---|---|---|
| `PatientLifecycle.PatientService.constructor` | patient-service/src/test/java/com/pm/patientservice/service/PatientServiceTest.java:37-47 | the service is built from the repository, billing client and Kafka producer it is given; given collaborators that satisfy `Consistent`, the new service satisfies its invariant `Valid()` |
| `PatientLifecycle.PatientService.GetPatients` | patient-service/src/test/java/com/pm/patientservice/service/PatientServiceTest.java:72-81 | the new state of the collaborators and the result are those of `GetPatientsRun` on the old state; the service invariant (valid store, unique emails, at most one billing request per patient id) is kept |
| `PatientLifecycle.GetPatientsListsEachOnce` | patient-service/src/test/java/com/pm/patientservice/service/PatientServiceTest.java:72-81 | `findAll` is called once more. The result has as many responses as there are stored patients. Each stored patient's response, with its name, appears exactly once. Each response is the response of the stored patient its id names. Store, billing log and event log are unchanged |
| `PatientLifecycle.PatientService.CreatePatient` | patient-service/src/test/java/com/pm/patientservice/service/PatientServiceTest.java:86-113 | the new state of repository, billing client and producer, and the result, are those of `CreatePatientRun` on the old state; the service invariant `Valid()` is kept |
| `PatientLifecycle.CreateWithNewEmail` | patient-service/src/test/java/com/pm/patientservice/service/PatientServiceTest.java:86-99 | When the email is unused: `existsByEmail(email)` is called once more and `save` once more. The request's fields are stored under a fresh id that no stored patient had. The response carries that record's name and email, and looking up the returned id finds the record. One more billing call is logged, exactly (id as text, name, email). One more event is logged, exactly the saved record |
| `PatientLifecycle.CreateWithTakenEmail` | patient-service/src/test/java/com/pm/patientservice/service/PatientServiceTest.java:104-113 | when the email is taken: the result is `EmailAlreadyExists` after one more `existsByEmail(email)`. No `save` call is added, and the store, billing log and event log are unchanged |
| `PatientLifecycle.PatientService.UpdatePatient` | patient-service/src/test/java/com/pm/patientservice/service/PatientServiceTest.java:118-148 | the new repository state and the result are those of `UpdatePatientRun`; billing client and producer are not touched; the service invariant `Valid()` is kept |
| `PatientLifecycle.UpdateExisting` | patient-service/src/test/java/com/pm/patientservice/service/PatientServiceTest.java:118-136 | For a stored id whose new email no other patient uses: `findById(id)`, `existsByEmailAndIdNot(email, id)` and `save` are each called once more. Only that patient's record changes, to the request's fields under the same id. The result is its response. No billing or event call is made |
| `PatientLifecycle.UpdateMissing` | patient-service/src/test/java/com/pm/patientservice/service/PatientServiceTest.java:141-148 | an id that is not stored gives `PatientNotFound` after one more `findById(id)`; no `save`, store and both logs unchanged |
| `PatientLifecycle.UpdateEmailTakenByOther` | patient-service/src/test/java/com/pm/patientservice/service/PatientServiceTest.java:126-127 | an email used by another patient gives `EmailAlreadyExists`; no `save`, store and both logs unchanged |
| `PatientLifecycle.UpdateKeepingOwnEmail` | patient-service/src/test/java/com/pm/patientservice/service/PatientServiceTest.java:126-127 | while emails are unique, a patient that keeps its own email is never rejected by the check against other patients |
| `PatientLifecycle.PatientService.DeletePatient` | patient-service/src/test/java/com/pm/patientservice/service/PatientServiceTest.java:153-156 | the new repository state is that of `DeletePatientRun`; billing client and producer are not touched; the service invariant `Valid()` is kept |
| `PatientLifecycle.DeleteRemoves` | patient-service/src/test/java/com/pm/patientservice/service/PatientServiceTest.java:153-156 | Exactly one repository call is added, and it is `deleteById(id)` with the same id. Afterwards the id is not found and every other patient remains. A missing id leaves the store as it was. No billing or event call is made |
| `PatientLifecycle.InitialConsistent` | patient-service/src/test/java/com/pm/patientservice/service/PatientServiceTest.java:37-47 | the freshly wired collaborators (empty store, empty logs) satisfy the invariant `Consistent` |
| `PatientLifecycle.CreateKeepsConsistent` | patient-service/src/test/java/com/pm/patientservice/service/PatientServiceTest.java:86-113 | create keeps the store valid and emails unique. No two billing requests ever name the same patient id |
| `PatientLifecycle.UpdateKeepsConsistent` | patient-service/src/test/java/com/pm/patientservice/service/PatientServiceTest.java:118-148 | update keeps the store valid, emails unique and at most one billing request per patient id |
| `PatientLifecycle.DeleteKeepsConsistent` | patient-service/src/test/java/com/pm/patientservice/service/PatientServiceTest.java:153-156 | delete keeps the store valid, emails unique and at most one billing request per patient id |
| `PatientRepository.Repository.constructor` | patient-service/src/test/java/com/pm/patientservice/service/PatientServiceTest.java:37-38 | a new repository is empty, valid and has received no calls |
| `PatientRepository.Repository.FindAll` | patient-service/src/test/java/com/pm/patientservice/service/PatientServiceTest.java:74-81 | logs one `findAll` and returns the stored patients in insertion order, the store unchanged |
| `PatientRepository.Repository.FindById` | patient-service/src/test/java/com/pm/patientservice/service/PatientServiceTest.java:125-147 | logs one `findById(id)` and returns the record stored under `id`, or none |
| `PatientRepository.Repository.ExistsByEmail` | patient-service/src/test/java/com/pm/patientservice/service/PatientServiceTest.java:87-110 | logs one `existsByEmail(email)` and answers whether some stored patient has exactly that email |
| `PatientRepository.Repository.ExistsByEmailAndIdNot` | patient-service/src/test/java/com/pm/patientservice/service/PatientServiceTest.java:126-135 | logs one `existsByEmailAndIdNot(email, id)` and answers whether a patient other than `id` has that email |
| `PatientRepository.Repository.Save` | patient-service/src/test/java/com/pm/patientservice/service/PatientServiceTest.java:88-136 | logs one `save(patient)`; the store and returned record are those of `Saved`; the store stays valid |
| `PatientRepository.Repository.DeleteById` | patient-service/src/test/java/com/pm/patientservice/service/PatientServiceTest.java:153-156 | logs one `deleteById(id)`; the store becomes `Deleted(store, id)` and stays valid |
| `PatientRepository.SavedValid` | patient-service/src/test/java/com/pm/patientservice/service/PatientServiceTest.java:88-128 | `save` keeps the store valid. The returned record has an id and is stored under it. A record without an id gets the next id from the generator, which no stored patient uses. Every other record is untouched |
| `PatientRepository.DeletedValid` | patient-service/src/test/java/com/pm/patientservice/service/PatientServiceTest.java:153-156 | `deleteById` keeps the store valid and removes exactly `id`. A missing id leaves the store unchanged |
| `PatientRepository.ListingExact` | patient-service/src/test/java/com/pm/patientservice/service/PatientServiceTest.java:73-74 | a full scan has as many entries as the store has patients, and each stored patient occurs in it exactly once |
| `PatientRepository.Listing` | patient-service/src/test/java/com/pm/patientservice/service/PatientServiceTest.java:73-74 | every record the scan lists is the one stored under its own id |
| `PatientRepository.WithoutDistinct` | patient-service/src/test/java/com/pm/patientservice/service/PatientServiceTest.java:156 | removing a deleted id from the insertion order keeps that order free of duplicates |
| `PatientModel.Responses` | patient-service/src/test/java/com/pm/patientservice/service/PatientServiceTest.java:76-80 | one response per patient, in the same order, carrying that patient's id as text, name and email |
| `PatientModel.TimesResponses` | patient-service/src/test/java/com/pm/patientservice/service/PatientServiceTest.java:79-80 | a patient's response occurs among the responses exactly as often as the patient occurs among the patients |
| `PatientModel.ToResponseInjective` | patient-service/src/test/java/com/pm/patientservice/service/PatientServiceTest.java:92-94 | two saved patients with equal responses are the same patient |
| `PatientModel.IdTextRoundTrip` | patient-service/src/test/java/com/pm/patientservice/service/PatientServiceTest.java:97-98 | reading an id's text form back gives the id, so distinct patients never share a text id |
| `PatientModel.DecimalRoundTrip` | patient-service/src/test/java/com/pm/patientservice/service/PatientServiceTest.java:98 | parsing the decimal digits of a number gives the number back |
| `PatientModel.Decimal` | patient-service/src/test/java/com/pm/patientservice/service/PatientServiceTest.java:98 | the text form of an id is a non-empty string of decimal digits |
| `BillingClient.BillingServiceGrpcClient.CreateBillingAccount` | patient-service/src/test/java/com/pm/patientservice/service/PatientServiceTest.java:97-98 | logs one `createBillingAccount(patientId, name, email)` with exactly those arguments |
| `BillingClient.BillingServiceGrpcClient.constructor` | patient-service/src/test/java/com/pm/patientservice/service/PatientServiceTest.java:40-41 | a new billing client has received no calls |
| `EventProducer.KafkaProducer.SendEvent` | patient-service/src/test/java/com/pm/patientservice/service/PatientServiceTest.java:99 | logs one `sendEvent(patient)` with exactly that patient |
| `EventProducer.KafkaProducer.constructor` | patient-service/src/test/java/com/pm/patientservice/service/PatientServiceTest.java:43-44 | a new producer has received no calls |
| `AuthService.Authenticate` | auth-service/src/test/java/com/pm/authservice/service/AuthServiceTest.java:64-110 | The email is looked up exactly once. A token comes back exactly when the user exists and the password matches its stored password, and it is the generator's token for that user's email and role. At most one password check and one token request are made, and a token request is made exactly when a token is returned |
| `AuthService.AuthenticateWithValidCredentials` | auth-service/src/test/java/com/pm/authservice/service/AuthServiceTest.java:64-79 | for a known user with a matching password, the result is `generateToken(email, role)`. The lookup, the match on (raw password, stored password) and the token request each happen exactly once |
| `AuthService.AuthenticateUnknownUser` | auth-service/src/test/java/com/pm/authservice/service/AuthServiceTest.java:84-93 | an unknown user gives no token from one lookup. No password check or token request is made, so the outcome is the same for any matcher and any generator |
| `AuthService.AuthenticateWrongPassword` | auth-service/src/test/java/com/pm/authservice/service/AuthServiceTest.java:98-110 | a wrong password gives no token after exactly one password check (raw, stored). No token request is made, so the outcome is the same for any generator |
| `AuthService.ValidateToken` | auth-service/src/test/java/com/pm/authservice/service/AuthServiceTest.java:115-133 | the validator is called exactly once on the token. The answer is true exactly when it returns normally and false when it throws `JwtException`, which is not propagated |

## Left out

- The services' implementation classes are not modelled. The model
  follows the services' unit tests: what they stub and verify, read in the
  plainest way. `createPatient` checks the email, then saves, calls billing
  and publishes. `updatePatient` looks up, checks, copies the request's
  fields and saves.
- Deleting a missing id raises no error. The test shows `deletePatient`
  as a single `deleteById(id)`: there is no lookup before it and no
  exception is expected. The fake repository's `deleteById` ignores an id
  it does not hold; in the test the mock simply does nothing. A stricter
  design would report "not found".
- The update test covers only a changed email. The model calls
  `existsByEmailAndIdNot` on every update, the plainest reading of that
  test; a design that checks only a changed email is not modelled.
  `UpdateKeepingOwnEmail` shows that the check never rejects a patient
  keeping its own email.
- Random UUIDs are not modelled. The repository hands out ids from a
  counter, and only freshness matters. `UUID.toString()` is modelled as
  decimal digits (`IdText`). Their parse (`IdOfText`) is an inverse written
  for the proofs. The response DTO's id is a `UUID`; the model renders it
  through `IdText`, which loses nothing.
- Dates are text. Parsing the request's date into `LocalDate`
  (`"1990-01-15"`) is not modelled, and neither is failing on a malformed
  date.
- The billing call's reply (`BillingResponse`) is dropped by the model.
  The test does not stub it (the mock returns `null`) and create still
  succeeds, which shows only that the service never dereferences the
  reply.
- Billing and Kafka failures, timeouts and a partial-success policy are not
  modelled: these collaborators are in-memory fakes that always accept.
  The Kafka event's protobuf encoding is also left out: the producer logs
  the patient it is handed.
- Relative order of the billing call and the event. Each collaborator has
  its own log, and the tests use no in-order verification.
- Concurrency: racing creates on one email and an atomic check-then-save.
  The model is sequential.
- `PatientRepository.Repository.Save`: saving a record whose id is not
  stored inserts it under that id. JPA's merge semantics for that case are
  not modelled. The service never saves such a record.
- `AuthService.ValidateToken`: exceptions other than `JwtException` are not
  modelled. The tests throw only `JwtException`.
- BCrypt matching and JWT signing/parsing are not modelled. They are the
  function parameters `matches`, `generateToken` and `validate`. Finding a
  user by email is the parameter `findByEmail`.
- Mockito and Spring wiring are not modelled: the service is built
  explicitly from its three collaborators.
- The controller (HTTP routing, JSON, bean validation) is not modelled. The
  analytics Kafka consumer (protobuf decoding) and the billing gRPC server
  are left out too: they are web and transport plumbing outside this core.
