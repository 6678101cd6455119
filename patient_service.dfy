/** The patient lifecycle orchestrator (`PatientService`): list, create,
    update and delete patients over the repository, provisioning a billing
    account and publishing an event on create only.

    Each operation is first given as a function from the state of the three
    collaborators (`World`) to the state after the operation and its result;
    the lemmas state what the operation's tests verify about it (which calls
    are made, how often, with which arguments) and the invariants it keeps;
    the class at the end runs the operation against the fake collaborators
    and is proved to behave as the function says. */
module PatientLifecycle {
  import opened Wrappers
  import opened CallLog
  import opened PatientModel
  import opened PatientRepository
  import opened BillingClient
  import opened EventProducer

  /** The store, and the calls received so far by the repository, the
      billing client and the event producer. */
  datatype World = World(
    store: Store,
    repoLog: seq<RepoCall>,
    billingLog: seq<BillingCall>,
    events: seq<Patient>)

  /** The state after an operation, and what it returned. */
  datatype Run<T> = Run(world: World, result: T)

  // ---------------------------------------------------------------------
  // The operations

  /** `getPatients`: one `findAll`, each listed patient mapped to its
      response. */
  function GetPatientsRun(w: World): Run<seq<PatientResponse>>
    requires StoreValid(w.store)
  {
    Run(w.(repoLog := w.repoLog + [FindAllCall]), Responses(Listing(w.store)))
  }

  /** `createPatient`: reject a taken email before anything is written;
      otherwise save the new patient, request a billing account for the
      saved record (its id as text, its name, its email), publish the saved
      record and return its response. */
  function CreatePatientRun(w: World, req: PatientRequest): Run<Result<PatientResponse, PatientError>>
  {
    var log := w.repoLog + [ExistsByEmailCall(req.email)];
    if EmailTaken(w.store, req.email) then
      Run(w.(repoLog := log), Err(EmailAlreadyExists(req.email)))
    else
      var s := Saved(w.store, ToModel(req));
      var p := s.saved;
      Run(World(s.store,
                log + [SaveCall(ToModel(req))],
                w.billingLog + [BillingCall(IdText(p.id.value), p.name, p.email)],
                w.events + [p]),
          Ok(ToResponse(p)))
  }

  /** The patient `p` with every field the request carries replaced. */
  function Apply(p: Patient, req: PatientRequest): Patient
  {
    p.(name := req.name, email := req.email, dateOfBirth := req.dateOfBirth, address := req.address)
  }

  /** `updatePatient`: look the id up, reject a missing id; reject an email
      another patient uses; otherwise replace the fields and save. */
  function UpdatePatientRun(w: World, id: PatientId, req: PatientRequest): Run<Result<PatientResponse, PatientError>>
  {
    var log := w.repoLog + [FindByIdCall(id)];
    match Lookup(w.store, id)
    case None =>
      Run(w.(repoLog := log), Err(PatientNotFound(id)))
    case Some(p) =>
      var log' := log + [ExistsByEmailAndIdNotCall(req.email, id)];
      if EmailTakenByOther(w.store, req.email, id) then
        Run(w.(repoLog := log'), Err(EmailAlreadyExists(req.email)))
      else
        var q := Apply(p, req);
        var s := Saved(w.store, q);
        Run(w.(store := s.store, repoLog := log' + [SaveCall(q)]), Ok(ToResponse(s.saved)))
  }

  /** `deletePatient`: a single `deleteById` with the same id. */
  function DeletePatientRun(w: World, id: PatientId): World
  {
    w.(store := Deleted(w.store, id), repoLog := w.repoLog + [DeleteByIdCall(id)])
  }

  // ---------------------------------------------------------------------
  // What the tests verify about each operation

  /** `getPatients` reads the repository once and returns one response per
      stored patient: each stored patient's response appears exactly once,
      and each response is the response of the patient its id names. */
  lemma GetPatientsListsEachOnce(w: World)
    requires StoreValid(w.store)
    ensures var run := GetPatientsRun(w);
      && |run.result| == |w.store.patients|
      && (forall k | k in w.store.patients :: Times(run.result, ToResponse(w.store.patients[k])) == 1)
      && (forall i | 0 <= i < |run.result| ::
            IdOfText(run.result[i].id) in w.store.patients
            && run.result[i] == ToResponse(w.store.patients[IdOfText(run.result[i].id)]))
      && Times(run.world.repoLog, FindAllCall) == Times(w.repoLog, FindAllCall) + 1
      && run.world.store == w.store
      && run.world.billingLog == w.billingLog && run.world.events == w.events
  {
    var ps := Listing(w.store);
    var rs := Responses(ps);
    ListingExact(w.store);
    forall k | k in w.store.patients
      ensures Times(rs, ToResponse(w.store.patients[k])) == 1
    {
      TimesResponses(ps, w.store.patients[k]);
    }
    forall i | 0 <= i < |rs|
      ensures IdOfText(rs[i].id) == ps[i].id.value
    {
      IdTextRoundTrip(ps[i].id.value);
    }
    TimesPush(w.repoLog, FindAllCall, FindAllCall);
  }

  /** A create with an unused email checks that email once, saves once,
      stores the request's fields under a fresh id, requests one billing
      account for exactly that (id as text, name, email), publishes the
      saved record once, and returns its response; looking up the returned
      id then finds the saved record. */
  lemma CreateWithNewEmail(w: World, req: PatientRequest)
    requires StoreValid(w.store)
    requires !EmailTaken(w.store, req.email)
    ensures var run := CreatePatientRun(w, req);
      var id := PatientId(w.store.nextId);
      var saved := Patient(Some(id), req.name, req.email, req.dateOfBirth, req.address);
      && id !in w.store.patients
      && run.world.store.patients == w.store.patients[id := saved]
      && StoreValid(run.world.store)
      && run.result == Ok(ToResponse(saved))
      && run.result.value.name == saved.name && run.result.value.email == saved.email
      && Lookup(run.world.store, IdOfText(run.result.value.id)) == Some(saved)
      && Times(run.world.repoLog, ExistsByEmailCall(req.email)) == Times(w.repoLog, ExistsByEmailCall(req.email)) + 1
      && SaveCount(run.world.repoLog) == SaveCount(w.repoLog) + 1
      && |run.world.billingLog| == |w.billingLog| + 1
      && Times(run.world.billingLog, BillingCall(IdText(id), saved.name, saved.email))
           == Times(w.billingLog, BillingCall(IdText(id), saved.name, saved.email)) + 1
      && |run.world.events| == |w.events| + 1
      && Times(run.world.events, saved) == Times(w.events, saved) + 1
  {
    var id := PatientId(w.store.nextId);
    var saved := Patient(Some(id), req.name, req.email, req.dateOfBirth, req.address);
    var log := w.repoLog + [ExistsByEmailCall(req.email)];
    SavedValid(w.store, ToModel(req));
    IdTextRoundTrip(id);
    TimesPush(w.repoLog, ExistsByEmailCall(req.email), ExistsByEmailCall(req.email));
    TimesPush(log, SaveCall(ToModel(req)), ExistsByEmailCall(req.email));
    SaveCountPush(w.repoLog, ExistsByEmailCall(req.email));
    SaveCountPush(log, SaveCall(ToModel(req)));
    TimesPush(w.billingLog, BillingCall(IdText(id), saved.name, saved.email), BillingCall(IdText(id), saved.name, saved.email));
    TimesPush(w.events, saved, saved);
  }

  /** A create with a taken email fails with `EmailAlreadyExists` after one
      check of that email; nothing is saved, no billing account is
      requested and no event is published. */
  lemma CreateWithTakenEmail(w: World, req: PatientRequest)
    requires EmailTaken(w.store, req.email)
    ensures var run := CreatePatientRun(w, req);
      && run.result == Err(EmailAlreadyExists(req.email))
      && run.world.store == w.store
      && Times(run.world.repoLog, ExistsByEmailCall(req.email)) == Times(w.repoLog, ExistsByEmailCall(req.email)) + 1
      && SaveCount(run.world.repoLog) == SaveCount(w.repoLog)
      && run.world.billingLog == w.billingLog
      && run.world.events == w.events
  {
    TimesPush(w.repoLog, ExistsByEmailCall(req.email), ExistsByEmailCall(req.email));
    SaveCountPush(w.repoLog, ExistsByEmailCall(req.email));
  }

  /** Updating a stored patient to an email no other patient uses looks the
      id up once, checks the email against the other patients once, saves
      once, replaces that patient's fields and nothing else, and makes no
      billing or event call. */
  lemma UpdateExisting(w: World, id: PatientId, req: PatientRequest)
    requires StoreValid(w.store)
    requires id in w.store.patients
    requires !EmailTakenByOther(w.store, req.email, id)
    ensures var run := UpdatePatientRun(w, id, req);
      var updated := Patient(Some(id), req.name, req.email, req.dateOfBirth, req.address);
      && run.result == Ok(ToResponse(updated))
      && run.world.store == w.store.(patients := w.store.patients[id := updated])
      && Times(run.world.repoLog, FindByIdCall(id)) == Times(w.repoLog, FindByIdCall(id)) + 1
      && Times(run.world.repoLog, ExistsByEmailAndIdNotCall(req.email, id))
           == Times(w.repoLog, ExistsByEmailAndIdNotCall(req.email, id)) + 1
      && SaveCount(run.world.repoLog) == SaveCount(w.repoLog) + 1
      && run.world.billingLog == w.billingLog
      && run.world.events == w.events
  {
    var log := w.repoLog + [FindByIdCall(id)];
    var log' := log + [ExistsByEmailAndIdNotCall(req.email, id)];
    var q := Apply(w.store.patients[id], req);
    TimesPush(w.repoLog, FindByIdCall(id), FindByIdCall(id));
    TimesPush(log, ExistsByEmailAndIdNotCall(req.email, id), FindByIdCall(id));
    TimesPush(log', SaveCall(q), FindByIdCall(id));
    TimesPush(w.repoLog, FindByIdCall(id), ExistsByEmailAndIdNotCall(req.email, id));
    TimesPush(log, ExistsByEmailAndIdNotCall(req.email, id), ExistsByEmailAndIdNotCall(req.email, id));
    TimesPush(log', SaveCall(q), ExistsByEmailAndIdNotCall(req.email, id));
    SaveCountPush(w.repoLog, FindByIdCall(id));
    SaveCountPush(log, ExistsByEmailAndIdNotCall(req.email, id));
    SaveCountPush(log', SaveCall(q));
  }

  /** Updating a missing id fails with `PatientNotFound` after one lookup;
      nothing is saved and the store is unchanged. */
  lemma UpdateMissing(w: World, id: PatientId, req: PatientRequest)
    requires id !in w.store.patients
    ensures var run := UpdatePatientRun(w, id, req);
      && run.result == Err(PatientNotFound(id))
      && run.world.store == w.store
      && Times(run.world.repoLog, FindByIdCall(id)) == Times(w.repoLog, FindByIdCall(id)) + 1
      && SaveCount(run.world.repoLog) == SaveCount(w.repoLog)
      && run.world.billingLog == w.billingLog
      && run.world.events == w.events
  {
    TimesPush(w.repoLog, FindByIdCall(id), FindByIdCall(id));
    SaveCountPush(w.repoLog, FindByIdCall(id));
  }

  /** Updating to an email another patient uses fails with
      `EmailAlreadyExists`; nothing is saved and the store is unchanged. */
  lemma UpdateEmailTakenByOther(w: World, id: PatientId, req: PatientRequest)
    requires id in w.store.patients
    requires EmailTakenByOther(w.store, req.email, id)
    ensures var run := UpdatePatientRun(w, id, req);
      && run.result == Err(EmailAlreadyExists(req.email))
      && run.world.store == w.store
      && SaveCount(run.world.repoLog) == SaveCount(w.repoLog)
      && run.world.billingLog == w.billingLog
      && run.world.events == w.events
  {
    var log := w.repoLog + [FindByIdCall(id)];
    SaveCountPush(w.repoLog, FindByIdCall(id));
    SaveCountPush(log, ExistsByEmailAndIdNotCall(req.email, id));
  }

  /** The check against other patients never rejects a patient keeping its
      own email, as long as emails are unique. */
  lemma UpdateKeepingOwnEmail(w: World, id: PatientId, req: PatientRequest)
    requires UniqueEmails(w.store)
    requires id in w.store.patients
    requires req.email == w.store.patients[id].email
    ensures UpdatePatientRun(w, id, req).result.Ok?
  {
  }

  /** `deletePatient` calls `deleteById` once with the same id and makes no
      other call; afterwards the id is not found and every other patient is
      still there. */
  lemma DeleteRemoves(w: World, id: PatientId)
    requires StoreValid(w.store)
    ensures var w' := DeletePatientRun(w, id);
      && Times(w'.repoLog, DeleteByIdCall(id)) == Times(w.repoLog, DeleteByIdCall(id)) + 1
      && |w'.repoLog| == |w.repoLog| + 1
      && SaveCount(w'.repoLog) == SaveCount(w.repoLog)
      && Lookup(w'.store, id) == None
      && w'.store.patients == w.store.patients - {id}
      && (id !in w.store.patients ==> w'.store == w.store)
      && w'.billingLog == w.billingLog
      && w'.events == w.events
  {
    DeletedValid(w.store, id);
    TimesPush(w.repoLog, DeleteByIdCall(id), DeleteByIdCall(id));
    SaveCountPush(w.repoLog, DeleteByIdCall(id));
  }

  // ---------------------------------------------------------------------
  // Invariants kept by every operation

  /** Every billing request names a distinct patient id, and that id is
      one the generator has already handed out: no patient is ever given
      two billing accounts. */
  ghost predicate ProvisionedOnce(w: World)
  {
    && (forall i, j | 0 <= i < j < |w.billingLog| ::
          w.billingLog[i].patientId != w.billingLog[j].patientId)
    && (forall i | 0 <= i < |w.billingLog| ::
          IdOfText(w.billingLog[i].patientId).value < w.store.nextId
          && IdText(IdOfText(w.billingLog[i].patientId)) == w.billingLog[i].patientId)
  }

  /** The store is valid, emails are unique, and billing accounts were
      requested at most once per patient. */
  ghost predicate Consistent(w: World)
  {
    StoreValid(w.store) && UniqueEmails(w.store) && ProvisionedOnce(w)
  }

  lemma InitialConsistent()
    ensures Consistent(World(EmptyStore, [], [], []))
  {
  }

  lemma CreateKeepsConsistent(w: World, req: PatientRequest)
    requires Consistent(w)
    ensures Consistent(CreatePatientRun(w, req).world)
  {
    if !EmailTaken(w.store, req.email) {
      var w' := CreatePatientRun(w, req).world;
      var id := PatientId(w.store.nextId);
      var t := IdText(id);
      SavedValid(w.store, ToModel(req));
      IdTextRoundTrip(id);
      assert w'.billingLog == w.billingLog + [BillingCall(t, req.name, req.email)];
      // Each earlier billing id names an id below `nextId` (`ProvisionedOnce`),
      // so it differs from the text of the fresh id `nextId` itself.
      forall i | 0 <= i < |w.billingLog|
        ensures w.billingLog[i].patientId != t
      {
      }
      forall a, b | a in w'.store.patients && b in w'.store.patients && a != b
        ensures w'.store.patients[a].email != w'.store.patients[b].email
      {
        if a != id && b != id {
          assert w'.store.patients[a] == w.store.patients[a];
          assert w'.store.patients[b] == w.store.patients[b];
        }
      }
    }
  }

  lemma UpdateKeepsConsistent(w: World, id: PatientId, req: PatientRequest)
    requires Consistent(w)
    ensures Consistent(UpdatePatientRun(w, id, req).world)
  {
  }

  lemma DeleteKeepsConsistent(w: World, id: PatientId)
    requires Consistent(w)
    ensures Consistent(DeletePatientRun(w, id))
  {
    DeletedValid(w.store, id);
  }

  // ---------------------------------------------------------------------
  // The service

  class PatientService {
    const repository: Repository
    const billing: BillingServiceGrpcClient
    const kafka: KafkaProducer

    /** The collaborators are handed in, as a dependency injector would;
        together they must already satisfy the service's invariant (fresh
        ones do, by `InitialConsistent`). */
    constructor (repository: Repository, billing: BillingServiceGrpcClient, kafka: KafkaProducer)
      requires Consistent(World(repository.View(), repository.log, billing.calls, kafka.sent))
      ensures this.repository == repository && this.billing == billing && this.kafka == kafka
      ensures Valid()
    {
      this.repository := repository;
      this.billing := billing;
      this.kafka := kafka;
    }

    ghost function Snapshot(): World
      reads repository, billing, kafka
    {
      World(repository.View(), repository.log, billing.calls, kafka.sent)
    }

    /** The service's invariant: the store is valid, no two patients share
        an email, and no patient id has been sent to billing twice. */
    ghost predicate Valid()
      reads repository, billing, kafka
    {
      Consistent(Snapshot())
    }

    method GetPatients() returns (r: seq<PatientResponse>)
      requires Valid()
      modifies repository
      ensures Valid()
      ensures Snapshot() == GetPatientsRun(old(Snapshot())).world
      ensures r == GetPatientsRun(old(Snapshot())).result
    {
      var ps := repository.FindAll();
      r := Responses(ps);
    }

    method CreatePatient(req: PatientRequest) returns (r: Result<PatientResponse, PatientError>)
      requires Valid()
      modifies repository, billing, kafka
      ensures Valid()
      ensures Snapshot() == CreatePatientRun(old(Snapshot()), req).world
      ensures r == CreatePatientRun(old(Snapshot()), req).result
    {
      ghost var w := Snapshot();
      CreateKeepsConsistent(w, req);
      var taken := repository.ExistsByEmail(req.email);
      if taken {
        return Err(EmailAlreadyExists(req.email));
      }
      var saved := repository.Save(ToModel(req));
      billing.CreateBillingAccount(IdText(saved.id.value), saved.name, saved.email);
      kafka.SendEvent(saved);
      r := Ok(ToResponse(saved));
    }

    method UpdatePatient(id: PatientId, req: PatientRequest) returns (r: Result<PatientResponse, PatientError>)
      requires Valid()
      modifies repository
      ensures Valid()
      ensures Snapshot() == UpdatePatientRun(old(Snapshot()), id, req).world
      ensures r == UpdatePatientRun(old(Snapshot()), id, req).result
    {
      ghost var w := Snapshot();
      UpdateKeepsConsistent(w, id, req);
      var found := repository.FindById(id);
      if found.None? {
        return Err(PatientNotFound(id));
      }
      var taken := repository.ExistsByEmailAndIdNot(req.email, id);
      if taken {
        return Err(EmailAlreadyExists(req.email));
      }
      var saved := repository.Save(Apply(found.value, req));
      r := Ok(ToResponse(saved));
    }

    method DeletePatient(id: PatientId)
      requires Valid()
      modifies repository
      ensures Valid()
      ensures Snapshot() == DeletePatientRun(old(Snapshot()), id)
    {
      DeleteKeepsConsistent(Snapshot(), id);
      repository.DeleteById(id);
    }
  }
}
