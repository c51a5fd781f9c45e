/** The persistence collaborator, as the services see it: five tables of
    rows kept in insertion order, with autoincrement ids, unique user emails
    and usernames, and foreign keys between the tables. Rows are never
    deleted, so a new row's id is one more than the last row's. */
module Store {
  import opened Js

  datatype Role = MEMBER | APPROVER

  datatype User = User(id: nat, username: string, email: string, passwordHash: string, role: Role, createdAt: int)

  /** `status` is a string column: the owner's generic update may write any
      value into it. */
  datatype PurchaseRequest = PurchaseRequest(id: nat, name: string, status: string, userId: nat, createdAt: int, updatedAt: int)

  datatype HistoryRow = HistoryRow(id: nat, purchaseRequestId: nat, change: string, timestamp: int)

  datatype RequestItem = RequestItem(purchaseRequestId: nat, itemId: nat)

  datatype Item = Item(id: nat, name: string, cost: int)

  const DRAFT := "DRAFT"
  const SUBMITTED := "SUBMITTED"
  const APPROVED := "APPROVED"
  const REJECTED := "REJECTED"

  /** Errors raised by the store itself. They carry no `status`. */
  const RecordNotFound := Error(None, "Record to update not found.")
  const RelatedRecordNotFound := Error(None, "Related record not found.")
  const ConstraintViolation := Error(None, "Foreign key constraint violated.")
  const MissingField := Error(None, "Argument is missing.")

  // ---------------------------------------------------------------------
  // Keys

  predicate UserIdsIncrease(us: seq<User>) {
    forall i, j :: 0 <= i < j < |us| ==> us[i].id < us[j].id
  }

  predicate RequestIdsIncrease(rs: seq<PurchaseRequest>) {
    forall i, j :: 0 <= i < j < |rs| ==> rs[i].id < rs[j].id
  }

  predicate HistoryIdsIncrease(hs: seq<HistoryRow>) {
    forall i, j :: 0 <= i < j < |hs| ==> hs[i].id < hs[j].id
  }

  predicate ItemIdsIncrease(xs: seq<Item>) {
    forall i, j :: 0 <= i < j < |xs| ==> xs[i].id < xs[j].id
  }

  /** The unique constraints on the user table. */
  predicate UniqueLogins(us: seq<User>) {
    forall i, j :: 0 <= i < j < |us| ==> us[i].email != us[j].email && us[i].username != us[j].username
  }

  function NextUserId(us: seq<User>): nat {
    if us == [] then 1 else us[|us| - 1].id + 1
  }

  function NextRequestId(rs: seq<PurchaseRequest>): nat {
    if rs == [] then 1 else rs[|rs| - 1].id + 1
  }

  function NextHistoryId(hs: seq<HistoryRow>): nat {
    if hs == [] then 1 else hs[|hs| - 1].id + 1
  }

  function NextItemId(xs: seq<Item>): nat {
    if xs == [] then 1 else xs[|xs| - 1].id + 1
  }

  predicate HasUser(us: seq<User>, id: int) {
    exists j :: 0 <= j < |us| && us[j].id == id
  }

  predicate HasRequest(rs: seq<PurchaseRequest>, id: int) {
    exists j :: 0 <= j < |rs| && rs[j].id == id
  }

  predicate HasItem(xs: seq<Item>, id: int) {
    exists j :: 0 <= j < |xs| && xs[j].id == id
  }

  /** The state of the store. */
  datatype Tables = Tables(
    users: seq<User>,
    requests: seq<PurchaseRequest>,
    history: seq<HistoryRow>,
    requestItems: seq<RequestItem>,
    items: seq<Item>)
  {
    /** Keys, unique constraints and foreign keys. */
    ghost predicate Valid() {
      && UserIdsIncrease(users) && UniqueLogins(users)
      && RequestIdsIncrease(requests) && HistoryIdsIncrease(history) && ItemIdsIncrease(items)
      && (forall i :: 0 <= i < |requests| ==> HasUser(users, requests[i].userId))
      && (forall i :: 0 <= i < |history| ==> HasRequest(requests, history[i].purchaseRequestId))
      && (forall i :: 0 <= i < |requestItems| ==>
            HasRequest(requests, requestItems[i].purchaseRequestId) && HasItem(items, requestItems[i].itemId))
    }
  }

  /** The store after a service call, and what the call returned or
      threw. */
  datatype Step<+T> = Step(after: Tables, outcome: Outcome<T>)

  // ---------------------------------------------------------------------
  // Lookups the services issue

  /** The user lookup by id: the position of the first user with that
      id, if any. A NaN id matches no row. */
  function FindUser(us: seq<User>, id: Num): (k: Option<nat>)
    ensures k.Some? ==> k.value < |us| && id == Int(us[k.value].id)
    ensures k.Some? ==> forall j :: 0 <= j < k.value ==> id != Int(us[j].id)
    ensures k.None? <==> forall j :: 0 <= j < |us| ==> id != Int(us[j].id)
  {
    if us == [] then None
    else if id == Int(us[0].id) then Some(0)
    else match FindUser(us[1..], id)
      case None => None
      case Some(k) => Some(k + 1)
  }

  /** The user lookup by email: the position of the first user with it. */
  function FindUserByEmail(us: seq<User>, email: string): (k: Option<nat>)
    ensures k.Some? ==> k.value < |us| && us[k.value].email == email
    ensures k.Some? ==> forall j :: 0 <= j < k.value ==> us[j].email != email
    ensures k.None? <==> forall j :: 0 <= j < |us| ==> us[j].email != email
  {
    if us == [] then None
    else if us[0].email == email then Some(0)
    else match FindUserByEmail(us[1..], email)
      case None => None
      case Some(k) => Some(k + 1)
  }

  /** The request filter: by id alone (owner `None`), or by id and owner. */
  predicate Matches(r: PurchaseRequest, id: Num, owner: Option<Num>) {
    id == Int(r.id) && (owner.Some? ==> owner.value == Int(r.userId))
  }

  /** `purchaseRequest.findFirst`/`findUnique` with that filter: the
      position of the first matching row, if any. */
  function FindRequest(rs: seq<PurchaseRequest>, id: Num, owner: Option<Num>): (k: Option<nat>)
    ensures k.Some? ==> k.value < |rs| && Matches(rs[k.value], id, owner)
    ensures k.Some? ==> forall j :: 0 <= j < k.value ==> !Matches(rs[j], id, owner)
    ensures k.None? <==> forall j :: 0 <= j < |rs| ==> !Matches(rs[j], id, owner)
  {
    if rs == [] then None
    else if Matches(rs[0], id, owner) then Some(0)
    else match FindRequest(rs[1..], id, owner)
      case None => None
      case Some(k) => Some(k + 1)
  }

  /** With increasing ids, the row found is the only row with that id. */
  lemma FoundRequestIsUnique(rs: seq<PurchaseRequest>, id: Num, owner: Option<Num>)
    requires RequestIdsIncrease(rs)
    requires FindRequest(rs, id, owner).Some?
    ensures forall j :: 0 <= j < |rs| && id == Int(rs[j].id) ==> j == FindRequest(rs, id, owner).value
  {
  }

  /** Appending a row with a fresh, larger id keeps ids increasing. */
  lemma AppendRequestKeepsOrder(rs: seq<PurchaseRequest>, r: PurchaseRequest)
    requires RequestIdsIncrease(rs) && r.id == NextRequestId(rs)
    ensures RequestIdsIncrease(rs + [r])
    ensures forall j :: 0 <= j < |rs| ==> rs[j].id < r.id
  {
    if rs != [] {
      assert forall j :: 0 <= j < |rs| - 1 ==> rs[j].id < rs[|rs| - 1].id;
    }
  }

  /** How the store may change between two states under the operations of
      this system: users, history, join rows and items are append-only, and
      a purchase request keeps its position, id, owner and creation time
      forever (only its name, status and update time change). */
  ghost predicate Evolves(t: Tables, t': Tables) {
    && t.users <= t'.users
    && |t.requests| <= |t'.requests|
    && (forall i :: 0 <= i < |t.requests| ==>
          && t'.requests[i].id == t.requests[i].id
          && t'.requests[i].userId == t.requests[i].userId
          && t'.requests[i].createdAt == t.requests[i].createdAt)
    && t.history <= t'.history
    && t.requestItems <= t'.requestItems
    && t.items <= t'.items
  }

  // ---------------------------------------------------------------------
  // The store as mutable state

  /** The database the services talk to, one field per table. */
  class Database {
    var users: seq<User>
    var requests: seq<PurchaseRequest>
    var history: seq<HistoryRow>
    var requestItems: seq<RequestItem>
    var items: seq<Item>

    function Snapshot(): Tables
      reads this
    {
      Tables(users, requests, history, requestItems, items)
    }

    ghost predicate Valid()
      reads this
    {
      Snapshot().Valid()
    }

    constructor ()
      ensures Valid()
      ensures Snapshot() == Tables([], [], [], [], [])
    {
      users, requests, history, requestItems, items := [], [], [], [], [];
    }
  }
}
