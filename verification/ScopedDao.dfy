/**
 * Owner-scoped data access.  A filter is an object whose entries each denote a predicate on
 * documents; it matches a document when every entry does.  Monitors and the other directly
 * owned collections carry the owner; incidents and logs belong to whoever owns their monitor.
 */
module ScopedDao {
  import opened Common

  type DocId = nat
  type Owner = nat

  datatype Value = Ref(id: nat) | Text(s: string)

  type Doc = map<string, Value>

  type Clause = (DocId, Doc) -> bool

  type Filter = map<string, Clause>

  datatype Collection = Monitors | Channels | NotificationLogs | StatusPages | Incidents | Logs

  type Docs = map<DocId, Doc>

  type Store = map<Collection, Docs>

  /** The stored documents of a collection; one that was never written to is empty. */
  function At(s: Store, c: Collection): Docs {
    if c in s then s[c] else map[]
  }

  function Put(s: Store, c: Collection, id: DocId, doc: Doc): Store {
    var docs: Docs := At(s, c)[id := doc];
    s[c := docs]
  }

  function Remove(s: Store, c: Collection, id: DocId): Store {
    s[c := At(s, c) - {id}]
  }

  datatype Result<+T> = Found(value: T) | NotFound | Unscoped | Rejected

  /** An owner id as it reaches the DAO. */
  datatype OwnerArg = Missing | Malformed | Valid(owner: Owner)

  datatype IdArg = BadId | Id(id: DocId)

  predicate IsDerived(c: Collection) {
    c == Incidents || c == Logs
  }

  function OwnerField(c: Collection): string {
    if IsDerived(c) then "monitorId" else "userId"
  }

  function OwnedMonitorIds(s: Store, owner: Owner): set<Value> {
    set id | id in At(s, Monitors) && Has(At(s, Monitors)[id], "userId", Ref(owner)) :: Ref(id)
  }

  predicate Has(doc: Doc, field: string, v: Value) {
    field in doc && doc[field] == v
  }

  /** The clause that confines a collection to one owner: equality on userId, or membership of monitorId. */
  function ScopeClause(s: Store, c: Collection, owner: Owner): Clause {
    if IsDerived(c) then
      var owned := OwnedMonitorIds(s, owner);
      (_: DocId, doc: Doc) => "monitorId" in doc && doc["monitorId"] in owned
    else
      (_: DocId, doc: Doc) => Has(doc, "userId", Ref(owner))
  }

  function ScopeFilter(s: Store, c: Collection, owner: Owner): Filter {
    var clause: Clause := ScopeClause(s, c, owner);
    map[OwnerField(c) := clause]
  }

  /** Refuses a missing or malformed owner instead of running unscoped. */
  function ScopeFor(s: Store, c: Collection, arg: OwnerArg): Result<Filter> {
    match arg
    case Valid(owner) => Found(ScopeFilter(s, c, owner))
    case _ => Unscoped
  }

  predicate Matches(f: Filter, id: DocId, doc: Doc) {
    forall k :: k in f ==> f[k](id, doc)
  }

  /** Colliding keys are combined under $and; otherwise the scope is spread over the filter. */
  function Merge(filter: Filter, scope: Filter): Filter {
    if exists k :: k in scope && k in filter then
      map["$and" := (id: DocId, doc: Doc) => Matches(filter, id, doc) && Matches(scope, id, doc)]
    else
      filter + scope
  }

  function Select(docs: Docs, f: Filter): Docs {
    map id | id in docs && Matches(f, id, docs[id]) :: docs[id]
  }

  /** What an owner owns in a collection. */
  function View(s: Store, c: Collection, owner: Owner): Docs {
    Owned(At(s, c), c, owner, OwnedMonitorIds(s, owner))
  }

  function Owned(docs: Docs, c: Collection, owner: Owner, monitors: set<Value>): Docs {
    map id | id in docs && Belongs(docs[id], c, owner, monitors) :: docs[id]
  }

  predicate Belongs(doc: Doc, c: Collection, owner: Owner, monitors: set<Value>) {
    if IsDerived(c) then "monitorId" in doc && doc["monitorId"] in monitors
    else Has(doc, "userId", Ref(owner))
  }

  predicate InScope(s: Store, c: Collection, owner: Owner, doc: Doc) {
    Belongs(doc, c, owner, OwnedMonitorIds(s, owner))
  }

  // ---------------------------------------------------------------- operations

  function Find(s: Store, c: Collection, arg: OwnerArg, filter: Filter): Result<Docs> {
    match ScopeFor(s, c, arg)
    case Found(scope) => Found(Select(At(s, c), Merge(filter, scope)))
    case _ => Unscoped
  }

  function ById(id: DocId): Filter {
    map["_id" := (i: DocId, _: Doc) => i == id]
  }

  /** Null for a document that does not exist and for one that belongs to somebody else. */
  function FindById(s: Store, c: Collection, arg: OwnerArg, id: IdArg): Result<Doc> {
    if id.BadId? then NotFound
    else
      match Find(s, c, arg, ById(id.id))
      case Found(docs) => if id.id in docs then Found(docs[id.id]) else NotFound
      case _ => Unscoped
  }

  /** The owner scope is the first stage; everything after it sees only what passed it. */
  function Aggregate<R>(s: Store, c: Collection, arg: OwnerArg, pipeline: Docs -> R): Result<R> {
    match ScopeFor(s, c, arg)
    case Found(scope) => Found(pipeline(Select(At(s, c), scope)))
    case _ => Unscoped
  }

  /** Ownership is stamped over the request body; a derived scope is no storable value, so the model rejects it. */
  function Create(s: Store, c: Collection, arg: OwnerArg, id: DocId, doc: Doc): (Store, Result<Doc>) {
    match arg
    case Valid(owner) =>
      if IsDerived(c) || id in At(s, c) then (s, Rejected)
      else
        var stamped := doc["userId" := Ref(owner)];
        (Put(s, c, id, stamped), Found(stamped))
    case _ => (s, Unscoped)
  }

  /** A patch may not rename the document; otherwise it is set field by field. */
  function UpdateById(s: Store, c: Collection, arg: OwnerArg, id: IdArg, patch: Doc): (Store, Result<Doc>) {
    match FindById(s, c, arg, id)
    case Found(doc) =>
      if "_id" in patch then (s, Rejected) else (Put(s, c, id.id, doc + patch), Found(doc + patch))
    case NotFound => (s, NotFound)
    case _ => (s, Unscoped)
  }

  function DeleteById(s: Store, c: Collection, arg: OwnerArg, id: IdArg): (Store, Result<Doc>) {
    match FindById(s, c, arg, id)
    case Found(doc) => (Remove(s, c, id.id), Found(doc))
    case NotFound => (s, NotFound)
    case _ => (s, Unscoped)
  }

  /** A write to one collection leaves all the others as they were. */
  ghost predicate OthersKept(s: Store, s': Store, c: Collection) {
    forall d :: d != c ==> At(s', d) == At(s, d)
  }

  class Model {
    var store: Store

    constructor (store: Store)
      ensures this.store == store
    {
      this.store := store;
    }
  }

  /** The data access object of one collection; its writes change the store in place. */
  class Dao {
    const model: Model
    const collection: Collection

    constructor (model: Model, collection: Collection)
      ensures this.model == model && this.collection == collection
    {
      this.model, this.collection := model, collection;
    }

    method CreateOne(arg: OwnerArg, id: DocId, doc: Doc) returns (r: Result<Doc>)
      modifies model
      ensures (model.store, r) == Create(old(model.store), collection, arg, id, doc)
      ensures r.Found? ==> !IsDerived(collection) && arg.Valid? && Has(r.value, "userId", Ref(arg.owner))
                           && id !in At(old(model.store), collection) && At(model.store, collection)[id] == r.value
      ensures r.Found? <==> arg.Valid? && !IsDerived(collection) && id !in At(old(model.store), collection)
      ensures r.Found? ==>
                && At(model.store, collection) == At(old(model.store), collection)[id := r.value]
                && r.value.Keys == doc.Keys + {"userId"} && r.value["userId"] == Ref(arg.owner)
                && (forall k :: k in doc && k != "userId" ==> r.value[k] == doc[k])
                && OthersKept(old(model.store), model.store, collection)
      ensures !r.Found? ==> model.store == old(model.store)
    {
      var (store, result) := Create(model.store, collection, arg, id, doc);
      model.store := store;
      r := result;
    }

    method UpdateOne(arg: OwnerArg, id: IdArg, patch: Doc) returns (r: Result<Doc>)
      modifies model
      ensures (model.store, r) == UpdateById(old(model.store), collection, arg, id, patch)
      ensures r.Found? <==>
                id.Id? && "_id" !in patch && arg.Valid? && id.id in View(old(model.store), collection, arg.owner)
      ensures r.Found? ==>
                var before := At(old(model.store), collection);
                && At(model.store, collection) == before[id.id := r.value]
                && r.value.Keys == before[id.id].Keys + patch.Keys
                && (forall k :: k in r.value ==> r.value[k] == if k in patch then patch[k] else before[id.id][k])
                && OthersKept(old(model.store), model.store, collection)
      ensures !r.Found? ==> model.store == old(model.store)
    {
      FindByIdIsView(model.store, collection, arg, id);
      var (store, result) := UpdateById(model.store, collection, arg, id, patch);
      model.store := store;
      r := result;
    }

    method DeleteOne(arg: OwnerArg, id: IdArg) returns (r: Result<Doc>)
      modifies model
      ensures (model.store, r) == DeleteById(old(model.store), collection, arg, id)
      ensures r.Found? <==> id.Id? && arg.Valid? && id.id in View(old(model.store), collection, arg.owner)
      ensures r.Found? ==>
                && r.value == At(old(model.store), collection)[id.id]
                && At(model.store, collection) == At(old(model.store), collection) - {id.id}
                && OthersKept(old(model.store), model.store, collection)
      ensures !r.Found? ==> model.store == old(model.store)
    {
      FindByIdIsView(model.store, collection, arg, id);
      var (store, result) := DeleteById(model.store, collection, arg, id);
      model.store := store;
      r := result;
    }
  }

  // ---------------------------------------------------------------- the filter algebra

  /** For every filter and document the merged filter is the intersection, whether or not keys collide. */
  lemma MergeIsIntersection(filter: Filter, scope: Filter, id: DocId, doc: Doc)
    ensures Matches(Merge(filter, scope), id, doc) <==> Matches(filter, id, doc) && Matches(scope, id, doc)
  {
    if exists k :: k in scope && k in filter {
      assert Merge(filter, scope)["$and"](id, doc) <==> Matches(filter, id, doc) && Matches(scope, id, doc);
    } else {
      forall k | k in filter ensures Merge(filter, scope)[k] == filter[k] {}
    }
  }

  lemma ScopeIsView(s: Store, c: Collection, owner: Owner, id: DocId, doc: Doc)
    ensures Matches(ScopeFilter(s, c, owner), id, doc) <==> InScope(s, c, owner, doc)
  {
    var scope := ScopeFilter(s, c, owner);
    assert OwnerField(c) in scope;
  }

  /** A query returns exactly the caller's own documents that match, however hostile the filter. */
  lemma FindIsViewFiltered(s: Store, c: Collection, owner: Owner, filter: Filter)
    ensures Find(s, c, Valid(owner), filter) == Found(Select(View(s, c, owner), filter))
  {
    var docs, merged := At(s, c), Merge(filter, ScopeFilter(s, c, owner));
    forall id | id in docs
      ensures Matches(merged, id, docs[id]) <==> Matches(filter, id, docs[id]) && InScope(s, c, owner, docs[id])
    {
      MergeIsIntersection(filter, ScopeFilter(s, c, owner), id, docs[id]);
      ScopeIsView(s, c, owner, id, docs[id]);
    }
    SelectSame(docs, View(s, c, owner), merged, filter);
  }

  lemma SelectSame(docs: Docs, view: Docs, f: Filter, g: Filter)
    requires view.Keys <= docs.Keys && forall id :: id in view ==> view[id] == docs[id]
    requires forall id :: id in docs ==> (Matches(f, id, docs[id]) <==> id in view && Matches(g, id, docs[id]))
    ensures Select(docs, f) == Select(view, g)
  {
  }

  lemma FindByIdIsView(s: Store, c: Collection, arg: OwnerArg, id: IdArg)
    ensures FindById(s, c, arg, id) ==
            if id.BadId? then NotFound
            else if !arg.Valid? then Unscoped
            else if id.id in View(s, c, arg.owner) then Found(At(s, c)[id.id])
            else NotFound
  {
    if id.Id? && arg.Valid? {
      FindIsViewFiltered(s, c, arg.owner, ById(id.id));
      var view := View(s, c, arg.owner);
      if id.id in view {
        assert Matches(ById(id.id), id.id, view[id.id]);
      } else {
        assert id.id !in Select(view, ById(id.id));
      }
    }
  }

  /** Two stores that look the same to an owner answer all of that owner's reads the same. */
  lemma ReadsSeeOnlyTheView(s: Store, s': Store, c: Collection, owner: Owner, filter: Filter, id: IdArg)
    requires View(s, c, owner) == View(s', c, owner)
    ensures Find(s, c, Valid(owner), filter) == Find(s', c, Valid(owner), filter)
    ensures FindById(s, c, Valid(owner), id) == FindById(s', c, Valid(owner), id)
  {
    FindIsViewFiltered(s, c, owner, filter);
    FindIsViewFiltered(s', c, owner, filter);
    FindByIdIsView(s, c, Valid(owner), id);
    FindByIdIsView(s', c, Valid(owner), id);
    if id.Id? && id.id in View(s, c, owner) {
      assert View(s, c, owner)[id.id] == View(s', c, owner)[id.id];
    }
  }

  lemma AggregateSeesOnlyTheView<R>(s: Store, c: Collection, owner: Owner, pipeline: Docs -> R)
    ensures Aggregate(s, c, Valid(owner), pipeline) == Found(pipeline(View(s, c, owner)))
  {
    var scope := ScopeFilter(s, c, owner);
    forall id, doc ensures Matches(scope, id, doc) <==> InScope(s, c, owner, doc) {
      ScopeIsView(s, c, owner, id, doc);
    }
    assert Select(At(s, c), scope) == View(s, c, owner);
  }

  /** Without a well-formed owner nothing is read and nothing is written. */
  lemma NoOwnerNoAccess<R>(s: Store, c: Collection, arg: OwnerArg, filter: Filter, pipeline: Docs -> R,
                           id: DocId, target: IdArg, doc: Doc)
    requires !arg.Valid?
    ensures Find(s, c, arg, filter) == Unscoped && Aggregate(s, c, arg, pipeline) == Unscoped
    ensures FindById(s, c, arg, target) == if target.BadId? then NotFound else Unscoped
    ensures Create(s, c, arg, id, doc) == (s, Unscoped)
    ensures UpdateById(s, c, arg, target, doc) == (s, if target.BadId? then NotFound else Unscoped)
    ensures DeleteById(s, c, arg, target) == (s, if target.BadId? then NotFound else Unscoped)
  {
  }

  // ---------------------------------------------------------------- tenants do not interfere

  datatype Op =
    | CreateOp(c: Collection, id: DocId, doc: Doc)
    | UpdateOp(c: Collection, target: IdArg, patch: Doc)
    | DeleteOp(c: Collection, target: IdArg)

  function Apply(s: Store, owner: Owner, op: Op): Store {
    match op
    case CreateOp(c, id, doc) => Create(s, c, Valid(owner), id, doc).0
    case UpdateOp(c, id, patch) => UpdateById(s, c, Valid(owner), id, patch).0
    case DeleteOp(c, id) => DeleteById(s, c, Valid(owner), id).0
  }

  function ApplyAll(s: Store, owner: Owner, ops: seq<Op>): Store {
    if ops == [] then s else Apply(ApplyAll(s, owner, ops[..|ops| - 1]), owner, ops[|ops| - 1])
  }

  predicate LeavesOwnerField(op: Op) {
    op.UpdateOp? ==> OwnerField(op.c) !in op.patch
  }

  lemma OwnedMonitorsAfterPut(s: Store, c: Collection, id: DocId, doc: Doc, b: Owner)
    requires c == Monitors ==> !Has(doc, "userId", Ref(b))
    requires c == Monitors && id in At(s, c) ==> !Has(At(s, c)[id], "userId", Ref(b))
    ensures OwnedMonitorIds(Put(s, c, id, doc), b) == OwnedMonitorIds(s, b)
  {
  }

  lemma OwnedMonitorsAfterRemove(s: Store, c: Collection, id: DocId, b: Owner)
    requires c == Monitors && id in At(s, c) ==> !Has(At(s, c)[id], "userId", Ref(b))
    ensures OwnedMonitorIds(Remove(s, c, id), b) == OwnedMonitorIds(s, b)
  {
  }

  lemma OwnedMonitorsKept(s: Store, a: Owner, op: Op, b: Owner)
    requires a != b && LeavesOwnerField(op)
    ensures OwnedMonitorIds(Apply(s, a, op), b) == OwnedMonitorIds(s, b)
  {
    match op
    case CreateOp(c, id, doc) =>
      if !IsDerived(c) && id !in At(s, c) { OwnedMonitorsAfterPut(s, c, id, doc["userId" := Ref(a)], b); }
    case UpdateOp(c, target, patch) =>
      FindByIdIsView(s, c, Valid(a), target);
      if target.Id? && target.id in View(s, c, a) && "_id" !in patch {
        OwnedMonitorsAfterPut(s, c, target.id, At(s, c)[target.id] + patch, b);
      }
    case DeleteOp(c, target) =>
      FindByIdIsView(s, c, Valid(a), target);
      if target.Id? && target.id in View(s, c, a) { OwnedMonitorsAfterRemove(s, c, target.id, b); }
  }

  /** Writing a document that b neither had nor gets leaves b's views alone. */
  lemma PutKeepsView(s: Store, c0: Collection, id: DocId, doc: Doc, c: Collection, b: Owner)
    requires OwnedMonitorIds(Put(s, c0, id, doc), b) == OwnedMonitorIds(s, b)
    requires id !in View(s, c0, b) && !InScope(s, c0, b, doc)
    ensures View(Put(s, c0, id, doc), c, b) == View(s, c, b)
  {
    if c == c0 { OwnedAfterPut(At(s, c), id, doc, c, b, OwnedMonitorIds(s, b)); }
  }

  lemma OwnedAfterPut(docs: Docs, id: DocId, doc: Doc, c: Collection, b: Owner, monitors: set<Value>)
    requires id !in Owned(docs, c, b, monitors) && !Belongs(doc, c, b, monitors)
    ensures Owned(docs[id := doc], c, b, monitors) == Owned(docs, c, b, monitors)
  {
  }

  lemma RemoveKeepsView(s: Store, c0: Collection, id: DocId, c: Collection, b: Owner)
    requires OwnedMonitorIds(Remove(s, c0, id), b) == OwnedMonitorIds(s, b) && id !in View(s, c0, b)
    ensures View(Remove(s, c0, id), c, b) == View(s, c, b)
  {
    if c == c0 { OwnedAfterRemove(At(s, c), id, c, b, OwnedMonitorIds(s, b)); }
  }

  lemma OwnedAfterRemove(docs: Docs, id: DocId, c: Collection, b: Owner, monitors: set<Value>)
    requires id !in Owned(docs, c, b, monitors)
    ensures Owned(docs - {id}, c, b, monitors) == Owned(docs, c, b, monitors)
  {
  }

  lemma OpKeepsOtherViews(s: Store, a: Owner, op: Op, c: Collection, b: Owner)
    requires a != b && LeavesOwnerField(op)
    ensures View(Apply(s, a, op), c, b) == View(s, c, b)
  {
    OwnedMonitorsKept(s, a, op, b);
    OwnedDisjoint(s, a, b);
    match op
    case CreateOp(c0, id, doc) =>
      if !IsDerived(c0) && id !in At(s, c0) { PutKeepsView(s, c0, id, doc["userId" := Ref(a)], c, b); }
    case UpdateOp(c0, target, patch) =>
      FindByIdIsView(s, c0, Valid(a), target);
      if target.Id? && target.id in View(s, c0, a) && "_id" !in patch {
        PutKeepsView(s, c0, target.id, At(s, c0)[target.id] + patch, c, b);
      }
    case DeleteOp(c0, target) =>
      FindByIdIsView(s, c0, Valid(a), target);
      if target.Id? && target.id in View(s, c0, a) { RemoveKeepsView(s, c0, target.id, c, b); }
  }

  /** A monitor has one owner, so derived scopes are disjoint too. */
  lemma OwnedDisjoint(s: Store, a: Owner, b: Owner)
    requires a != b
    ensures OwnedMonitorIds(s, a) !! OwnedMonitorIds(s, b)
  {
  }

  /**
   * No sequence of scoped operations by one owner, patches not naming the owner field, changes
   * anything another owner can see, in any collection, directly or derived.
   */
  lemma {:induction false} TenantsDoNotInterfere(s: Store, a: Owner, ops: seq<Op>, c: Collection, b: Owner)
    requires a != b && forall k :: 0 <= k < |ops| ==> LeavesOwnerField(ops[k])
    ensures View(ApplyAll(s, a, ops), c, b) == View(s, c, b)
  {
    if ops != [] {
      TenantsDoNotInterfere(s, a, ops[..|ops| - 1], c, b);
      OpKeepsOtherViews(ApplyAll(s, a, ops[..|ops| - 1]), a, ops[|ops| - 1], c, b);
    }
  }

  /**
   * The hypothesis is exact for a single update: it reaches another owner's view of the
   * collection if and only if it finds a document and the patch hands it to that owner.
   */
  lemma PatchReachesOther(s: Store, a: Owner, c: Collection, id: DocId, patch: Doc, b: Owner)
    requires a != b && "_id" !in patch
    ensures var s' := UpdateById(s, c, Valid(a), Id(id), patch).0;
            View(s', c, b) != View(s, c, b) <==>
            id in View(s, c, a) && OwnerField(c) in patch
            && (if IsDerived(c) then patch["monitorId"] in OwnedMonitorIds(s, b) else patch["userId"] == Ref(b))
  {
    FindByIdIsView(s, c, Valid(a), Id(id));
    OwnedDisjoint(s, a, b);
    if id in View(s, c, a) {
      PutChangesView(s, c, id, At(s, c)[id] + patch, b);
    }
  }

  /** The records of one monitor in a derived collection. */
  function RecordsOf(s: Store, c: Collection, monitor: DocId): Docs {
    map id | id in At(s, c) && Has(At(s, c)[id], "monitorId", Ref(monitor)) :: At(s, c)[id]
  }

  predicate HandsOver(s: Store, a: Owner, id: DocId, patch: Doc, b: Owner) {
    id in View(s, Monitors, a) && Has(patch, "userId", Ref(b))
  }

  /**
   * A monitor that an update hands over takes its incidents and logs with it: they are what
   * the new owner's derived views gain, and exactly what the old owner's lose.
   */
  lemma HandOverMovesRecords(s: Store, a: Owner, id: DocId, patch: Doc, c: Collection, b: Owner)
    requires a != b && "_id" !in patch && IsDerived(c)
    ensures var s', records := UpdateById(s, Monitors, Valid(a), Id(id), patch).0, RecordsOf(s, c, id);
            if HandsOver(s, a, id, patch, b) then
              && View(s', c, b) == View(s, c, b) + records && View(s, c, b).Keys !! records.Keys
              && View(s', c, a) == View(s, c, a) - records.Keys
            else View(s', c, b) == View(s, c, b)
  {
    UpdateIsPut(s, Monitors, a, id, patch);
    if id in View(s, Monitors, a) {
      var doc := At(s, Monitors)[id] + patch;
      if Has(doc, "userId", Ref(b)) {
        HandOverByPut(s, a, id, doc, c, b);
      } else {
        KeptByPut(s, a, id, doc, c, b);
      }
    }
  }

  lemma KeptByPut(s: Store, a: Owner, id: DocId, doc: Doc, c: Collection, b: Owner)
    requires a != b && IsDerived(c) && id in View(s, Monitors, a) && !Has(doc, "userId", Ref(b))
    ensures View(Put(s, Monitors, id, doc), c, b) == View(s, c, b)
  {
    MonitorsAfterUpdate(s, a, id, doc, b);
    SameMonitorsSameView(s, Put(s, Monitors, id, doc), c, b);
  }

  lemma SameMonitorsSameView(s: Store, s': Store, c: Collection, b: Owner)
    requires OwnedMonitorIds(s', b) == OwnedMonitorIds(s, b) && At(s', c) == At(s, c)
    ensures View(s', c, b) == View(s, c, b)
  {
  }

  lemma UpdateIsPut(s: Store, c: Collection, a: Owner, id: DocId, patch: Doc)
    requires "_id" !in patch
    ensures UpdateById(s, c, Valid(a), Id(id), patch).0
            == if id in View(s, c, a) then Put(s, c, id, At(s, c)[id] + patch) else s
  {
    FindByIdIsView(s, c, Valid(a), Id(id));
  }

  lemma HandOverByPut(s: Store, a: Owner, id: DocId, doc: Doc, c: Collection, b: Owner)
    requires a != b && IsDerived(c) && id in View(s, Monitors, a) && Has(doc, "userId", Ref(b))
    ensures var s' := Put(s, Monitors, id, doc);
            var moved := RecordsOf(s, c, id);
            && View(s', c, b) == View(s, c, b) + moved && View(s, c, b).Keys !! moved.Keys
            && View(s', c, a) == View(s, c, a) - moved.Keys
  {
    MonitorsAfterUpdate(s, a, id, doc, b);
    assert At(Put(s, Monitors, id, doc), c) == At(s, c);
    OwnedMoves(At(s, c), c, OwnedMonitorIds(s, b), id, b);
    OwnedMoves(At(s, c), c, OwnedMonitorIds(s, a) - {Ref(id)}, id, a);
    assert OwnedMonitorIds(s, a) - {Ref(id)} + {Ref(id)} == OwnedMonitorIds(s, a);
  }

  /** One monitor more brings exactly its own records. */
  lemma OwnedMoves(docs: Docs, c: Collection, monitors: set<Value>, id: DocId, owner: Owner)
    requires IsDerived(c) && Ref(id) !in monitors
    ensures var records: Docs := map i | i in docs && Has(docs[i], "monitorId", Ref(id)) :: docs[i];
            var more, fewer := Owned(docs, c, owner, monitors + {Ref(id)}), Owned(docs, c, owner, monitors);
            more == fewer + records && fewer == more - records.Keys && fewer.Keys !! records.Keys
  {
  }

  /** Whose monitors an overwritten monitor is among. */
  lemma MonitorsAfterUpdate(s: Store, a: Owner, id: DocId, doc: Doc, b: Owner)
    requires id in View(s, Monitors, a) && a != b
    ensures var s' := Put(s, Monitors, id, doc);
            && OwnedMonitorIds(s', b) == OwnedMonitorIds(s, b) + (if Has(doc, "userId", Ref(b)) then {Ref(id)} else {})
            && (Has(doc, "userId", Ref(b)) ==> OwnedMonitorIds(s', a) == OwnedMonitorIds(s, a) - {Ref(id)})
            && Ref(id) in OwnedMonitorIds(s, a) && Ref(id) !in OwnedMonitorIds(s, b)
  {
    var s' := Put(s, Monitors, id, doc);
    assert At(s', Monitors) == At(s, Monitors)[id := doc];
  }

  /** Writing over a document that b did not see shows in b's view exactly when b's scope admits the new one. */
  lemma PutChangesView(s: Store, c: Collection, id: DocId, doc: Doc, b: Owner)
    requires id !in View(s, c, b)
    ensures View(Put(s, c, id, doc), c, b) != View(s, c, b) <==> InScope(s, c, b, doc)
  {
    var s' := Put(s, c, id, doc);
    assert At(s', c) == At(s, c)[id := doc];
    if IsDerived(c) {
      assert At(s', Monitors) == At(s, Monitors);
      OwnedChangedByPut(At(s, c), id, doc, c, b, OwnedMonitorIds(s, b));
    } else {
      DirectIgnoresMonitors(At(s', c), c, b, OwnedMonitorIds(s', b), OwnedMonitorIds(s, b));
      OwnedChangedByPut(At(s, c), id, doc, c, b, OwnedMonitorIds(s, b));
    }
  }

  lemma OwnedChangedByPut(docs: Docs, id: DocId, doc: Doc, c: Collection, b: Owner, monitors: set<Value>)
    requires id !in Owned(docs, c, b, monitors)
    ensures Owned(docs[id := doc], c, b, monitors) != Owned(docs, c, b, monitors) <==> Belongs(doc, c, b, monitors)
  {
    if Belongs(doc, c, b, monitors) {
      assert id in Owned(docs[id := doc], c, b, monitors);
    } else {
      OwnedAfterPut(docs, id, doc, c, b, monitors);
    }
  }

  lemma DirectIgnoresMonitors(docs: Docs, c: Collection, b: Owner, monitors: set<Value>, monitors': set<Value>)
    requires !IsDerived(c)
    ensures Owned(docs, c, b, monitors) == Owned(docs, c, b, monitors')
  {
  }
}
