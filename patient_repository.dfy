/** The patient repository: an in-memory store of patients keyed by id that
    records every call made to it, so that the calls a service makes can be
    counted the way the service's tests count them on a mock. */
module PatientRepository {
  import opened Wrappers
  import opened CallLog
  import opened PatientModel

  /** The stored patients, their ids in insertion order (the order a full
      scan returns them in), and the next id the generator hands out. */
  datatype Store = Store(patients: map<PatientId, Patient>, order: seq<PatientId>, nextId: nat)

  /** One call made to the repository, with its arguments. */
  datatype RepoCall =
    | FindAllCall
    | FindByIdCall(id: PatientId)
    | ExistsByEmailCall(email: string)
    | ExistsByEmailAndIdNotCall(email: string, id: PatientId)
    | SaveCall(patient: Patient)
    | DeleteByIdCall(id: PatientId)

  /** What `save` leaves behind and what it returns. */
  datatype SaveResult = SaveResult(store: Store, saved: Patient)

  const EmptyStore := Store(map[], [], 0)

  ghost predicate Distinct(ids: seq<PatientId>)
  {
    forall i, j | 0 <= i < j < |ids| :: ids[i] != ids[j]
  }

  lemma DistinctTail(ids: seq<PatientId>)
    requires Distinct(ids) && ids != []
    ensures Distinct(ids[1..]) && ids[0] !in ids[1..]
  {
  }

  lemma DistinctCons(a: PatientId, ids: seq<PatientId>)
    requires Distinct(ids) && a !in ids
    ensures Distinct([a] + ids)
  {
  }

  /** The store's invariant: the order lists each stored id exactly once,
      each patient is stored under its own id, and every id in use lies
      below the generator's next id. */
  ghost predicate StoreValid(st: Store)
  {
    && (forall i | 0 <= i < |st.order| :: st.order[i] in st.patients)
    && (forall k | k in st.patients :: k in st.order)
    && Distinct(st.order)
    && (forall k | k in st.patients :: st.patients[k].id == Some(k) && k.value < st.nextId)
  }

  /** The number of `save` calls, whatever their argument
      (`verify(repo, times(n)).save(any(Patient.class))`). */
  function SaveCount(log: seq<RepoCall>): nat
  {
    if log == [] then 0 else (if log[0].SaveCall? then 1 else 0) + SaveCount(log[1..])
  }

  lemma {:induction false} SaveCountAppend(a: seq<RepoCall>, b: seq<RepoCall>)
    ensures SaveCount(a + b) == SaveCount(a) + SaveCount(b)
  {
    if a == [] {
      assert a + b == b;
    } else {
      assert (a + b)[1..] == a[1..] + b;
      SaveCountAppend(a[1..], b);
    }
  }

  lemma SaveCountPush(log: seq<RepoCall>, c: RepoCall)
    ensures SaveCount(log + [c]) == SaveCount(log) + if c.SaveCall? then 1 else 0
  {
    SaveCountAppend(log, [c]);
    assert [c][1..] == [];
  }

  /** `existsByEmail`: some stored patient has this email (exact match). */
  predicate EmailTaken(st: Store, email: string)
  {
    exists k | k in st.patients :: st.patients[k].email == email
  }

  /** `existsByEmailAndIdNot`: a patient other than `id` has this email. */
  predicate EmailTakenByOther(st: Store, email: string, id: PatientId)
  {
    exists k | k in st.patients && k != id :: st.patients[k].email == email
  }

  /** No two stored patients share an email. */
  ghost predicate UniqueEmails(st: Store)
  {
    forall a, b | a in st.patients && b in st.patients && a != b ::
      st.patients[a].email != st.patients[b].email
  }

  /** `findById`. */
  function Lookup(st: Store, id: PatientId): Option<Patient>
  {
    if id in st.patients then Some(st.patients[id]) else None
  }

  /** `save`: a patient without an id is inserted under a fresh id, which
      the returned record carries; a patient with an id replaces the record
      stored under it (or is inserted there). */
  function Saved(st: Store, p: Patient): SaveResult
  {
    match p.id
    case None =>
      var k := PatientId(st.nextId);
      var q := p.(id := Some(k));
      SaveResult(Store(st.patients[k := q], st.order + [k], st.nextId + 1), q)
    case Some(k) =>
      if k in st.patients then SaveResult(st.(patients := st.patients[k := p]), p)
      else
        var next := if k.value < st.nextId then st.nextId else k.value + 1;
        SaveResult(Store(st.patients[k := p], st.order + [k], next), p)
  }

  /** `ids` with every occurrence of `id` dropped. */
  function Without(ids: seq<PatientId>, id: PatientId): (r: seq<PatientId>)
    ensures forall x :: x in r <==> x in ids && x != id
    ensures id !in ids ==> r == ids
  {
    if ids == [] then []
    else if ids[0] == id then Without(ids[1..], id)
    else [ids[0]] + Without(ids[1..], id)
  }

  /** Dropping an id keeps a duplicate-free order duplicate-free. */
  lemma {:induction false} WithoutDistinct(ids: seq<PatientId>, id: PatientId)
    requires Distinct(ids)
    ensures Distinct(Without(ids, id))
  {
    if ids != [] {
      DistinctTail(ids);
      WithoutDistinct(ids[1..], id);
      if ids[0] != id {
        DistinctCons(ids[0], Without(ids[1..], id));
      }
    }
  }

  /** `deleteById`: the record under `id` is removed; a missing id is
      silently ignored. */
  function Deleted(st: Store, id: PatientId): Store
  {
    Store(st.patients - {id}, Without(st.order, id), st.nextId)
  }

  function ListIn(ids: seq<PatientId>, ps: map<PatientId, Patient>): (r: seq<Patient>)
    requires forall i | 0 <= i < |ids| :: ids[i] in ps
    ensures |r| == |ids|
    ensures forall i | 0 <= i < |ids| :: r[i] == ps[ids[i]]
  {
    if ids == [] then [] else [ps[ids[0]]] + ListIn(ids[1..], ps)
  }

  /** `findAll`: the stored patients in insertion order. Each listed
      patient is the record stored under its own id. */
  function Listing(st: Store): (r: seq<Patient>)
    requires StoreValid(st)
    ensures forall i | 0 <= i < |r| ::
      r[i].id.Some? && r[i].id.value in st.patients && st.patients[r[i].id.value] == r[i]
  {
    ListIn(st.order, st.patients)
  }

  lemma {:induction false} TimesListIn(ids: seq<PatientId>, ps: map<PatientId, Patient>, k: PatientId)
    requires forall i | 0 <= i < |ids| :: ids[i] in ps
    requires Distinct(ids)
    requires forall j | j in ps :: ps[j].id == Some(j)
    requires k in ps
    ensures Times(ListIn(ids, ps), ps[k]) == if k in ids then 1 else 0
  {
    if ids != [] {
      var rest := ids[1..];
      assert ListIn(ids, ps)[1..] == ListIn(rest, ps);
      DistinctTail(ids);
      assert ps[ids[0]] == ps[k] ==> ids[0] == k;
      assert k in ids <==> k == ids[0] || k in rest;
      TimesListIn(rest, ps, k);
    }
  }

  lemma {:induction false} DistinctCard(ids: seq<PatientId>)
    requires Distinct(ids)
    ensures |set x | x in ids| == |ids|
  {
    if ids != [] {
      var rest := ids[1..];
      DistinctTail(ids);
      assert (set x | x in ids) == {ids[0]} + (set x | x in rest);
      DistinctCard(rest);
    }
  }

  /** A full scan returns every stored patient exactly once and nothing
      else. */
  lemma ListingExact(st: Store)
    requires StoreValid(st)
    ensures |Listing(st)| == |st.patients|
    ensures forall k | k in st.patients :: Times(Listing(st), st.patients[k]) == 1
  {
    DistinctCard(st.order);
    assert st.patients.Keys == set x | x in st.order;
    forall k | k in st.patients
      ensures Times(Listing(st), st.patients[k]) == 1
    {
      TimesListIn(st.order, st.patients, k);
    }
  }

  /** `save` keeps the store valid and the record it returns is stored
      under its id. A patient without an id gets the generator's next id,
      which no stored patient uses; all other records are untouched. */
  lemma SavedValid(st: Store, p: Patient)
    requires StoreValid(st)
    ensures StoreValid(Saved(st, p).store)
    ensures Saved(st, p).saved.id.Some?
    ensures Lookup(Saved(st, p).store, Saved(st, p).saved.id.value) == Some(Saved(st, p).saved)
    ensures p.id.None? ==>
      && PatientId(st.nextId) !in st.patients
      && Saved(st, p).saved == p.(id := Some(PatientId(st.nextId)))
    ensures p.id.Some? ==> Saved(st, p).saved == p
    ensures Saved(st, p).store.patients == st.patients[Saved(st, p).saved.id.value := Saved(st, p).saved]
    ensures st.nextId <= Saved(st, p).store.nextId
  {
    var k := if p.id.None? then PatientId(st.nextId) else p.id.value;
    if k !in st.patients {
      assert k !in st.order;
    }
  }

  /** `deleteById` keeps the store valid, removes exactly `id`, and leaves
      the store as it was when `id` is not stored. */
  lemma DeletedValid(st: Store, id: PatientId)
    requires StoreValid(st)
    ensures StoreValid(Deleted(st, id))
    ensures Lookup(Deleted(st, id), id) == None
    ensures Deleted(st, id).patients == st.patients - {id}
    ensures id !in st.patients ==> Deleted(st, id) == st
  {
    var r := Deleted(st, id).order;
    WithoutDistinct(st.order, id);
    forall i | 0 <= i < |r| ensures r[i] in st.patients - {id} {
      assert r[i] in r;
    }
    if id !in st.patients {
      assert id !in st.order;
      assert st.patients - {id} == st.patients;
    }
  }

  /** The fake repository. Each method records its call and behaves as the
      function of the same name above. */
  class Repository {
    var patients: map<PatientId, Patient>
    var order: seq<PatientId>
    var nextId: nat
    var log: seq<RepoCall>

    function View(): Store
      reads this
    {
      Store(patients, order, nextId)
    }

    ghost predicate Valid()
      reads this
    {
      StoreValid(View())
    }

    constructor ()
      ensures Valid() && View() == EmptyStore && log == []
    {
      patients, order, nextId, log := map[], [], 0, [];
    }

    method FindAll() returns (ps: seq<Patient>)
      requires Valid()
      modifies this
      ensures Valid() && View() == old(View())
      ensures log == old(log) + [FindAllCall]
      ensures ps == Listing(View())
    {
      log := log + [FindAllCall];
      ps := Listing(View());
    }

    method FindById(id: PatientId) returns (r: Option<Patient>)
      modifies this
      ensures View() == old(View())
      ensures log == old(log) + [FindByIdCall(id)]
      ensures r == Lookup(View(), id)
    {
      log := log + [FindByIdCall(id)];
      r := if id in patients then Some(patients[id]) else None;
    }

    method ExistsByEmail(email: string) returns (b: bool)
      modifies this
      ensures View() == old(View())
      ensures log == old(log) + [ExistsByEmailCall(email)]
      ensures b == EmailTaken(View(), email)
    {
      log := log + [ExistsByEmailCall(email)];
      b := exists k | k in patients :: patients[k].email == email;
    }

    method ExistsByEmailAndIdNot(email: string, id: PatientId) returns (b: bool)
      modifies this
      ensures View() == old(View())
      ensures log == old(log) + [ExistsByEmailAndIdNotCall(email, id)]
      ensures b == EmailTakenByOther(View(), email, id)
    {
      log := log + [ExistsByEmailAndIdNotCall(email, id)];
      b := exists k | k in patients && k != id :: patients[k].email == email;
    }

    method Save(p: Patient) returns (saved: Patient)
      requires Valid()
      modifies this
      ensures Valid()
      ensures View() == Saved(old(View()), p).store
      ensures saved == Saved(old(View()), p).saved
      ensures log == old(log) + [SaveCall(p)]
    {
      var r := Saved(View(), p);
      SavedValid(View(), p);
      patients, order, nextId := r.store.patients, r.store.order, r.store.nextId;
      log := log + [SaveCall(p)];
      saved := r.saved;
    }

    method DeleteById(id: PatientId)
      requires Valid()
      modifies this
      ensures Valid()
      ensures View() == Deleted(old(View()), id)
      ensures log == old(log) + [DeleteByIdCall(id)]
    {
      DeletedValid(View(), id);
      patients, order := patients - {id}, Without(order, id);
      log := log + [DeleteByIdCall(id)];
    }
  }
}
