/** The purchase-request workflow: owner-scoped queries and updates,
    submission, approval and rejection by approvers, and the status summary.

    Each operation that writes is given twice: as a `...Step` function from
    the state of the store before the call to the state after it and the
    call's outcome (the properties of the operation are stated on it), and
    as a method that takes the `Database`, performs the source's reads and
    writes one after the other, and is proved to end in that state. */
module RequestsService {
  import opened Js
  import opened Store

  /** `select: {name, status, createdAt}` */
  datatype RequestSummary = RequestSummary(name: string, status: string, createdAt: int)

  /** `select: {name, status, createdAt, updatedAt}` */
  datatype RequestDetail = RequestDetail(name: string, status: string, createdAt: int, updatedAt: int)

  /** `select: {id, name, status, createdAt, updatedAt}` */
  datatype ReviewedRequest = ReviewedRequest(id: nat, name: string, status: string, createdAt: int, updatedAt: int)

  /** `select: {id, name, status, createdAt}` */
  datatype CreatedRequest = CreatedRequest(id: nat, name: string, status: string, createdAt: int)

  datatype CreateResult = CreateResult(purchaseRequestCreated: CreatedRequest, requestItemCreated: RequestItem)

  /** `select: {name, cost}` */
  datatype ItemView = ItemView(name: string, cost: int)

  const NotFound := Error(Some(404), "Not found")
  const Forbidden := Error(Some(403), "Forbidden")

  function Summarize(r: PurchaseRequest): RequestSummary {
    RequestSummary(r.name, r.status, r.createdAt)
  }

  function Detail(r: PurchaseRequest): RequestDetail {
    RequestDetail(r.name, r.status, r.createdAt, r.updatedAt)
  }

  // ---------------------------------------------------------------------
  // listMine

  /** The caller's rows, projected, in table order. */
  function Owned(rs: seq<PurchaseRequest>, owner: Num): (v: seq<RequestSummary>)
    ensures |v| <= |rs|
    ensures forall x :: x in v <==> exists i :: 0 <= i < |rs| && owner == Int(rs[i].userId) && x == Summarize(rs[i])
  {
    if rs == [] then []
    else
      var rest := Owned(rs[1..], owner);
      assert forall x :: x in rest <==> exists i :: 1 <= i < |rs| && owner == Int(rs[i].userId) && x == Summarize(rs[i]) by {
        forall x | x in rest ensures exists i :: 1 <= i < |rs| && owner == Int(rs[i].userId) && x == Summarize(rs[i]) {
          var i :| 0 <= i < |rs[1..]| && owner == Int(rs[1..][i].userId) && x == Summarize(rs[1..][i]);
          assert rs[i + 1] == rs[1..][i];
        }
        forall x, i | 1 <= i < |rs| && owner == Int(rs[i].userId) && x == Summarize(rs[i]) ensures x in rest {
          assert rs[1..][i - 1] == rs[i];
        }
      }
      (if owner == Int(rs[0].userId) then [Summarize(rs[0])] else []) + rest
  }

  /** `orderBy: {createdAt: "desc"}` */
  predicate NewestFirst(v: seq<RequestSummary>) {
    forall i, j :: 0 <= i < j < |v| ==> v[i].createdAt >= v[j].createdAt
  }

  function InsertNewestFirst(x: RequestSummary, v: seq<RequestSummary>): (r: seq<RequestSummary>)
    requires NewestFirst(v)
    ensures forall y :: y in r <==> y == x || y in v
    ensures NewestFirst(r)
    ensures multiset(r) == multiset(v) + multiset{x}
  {
    if v == [] || x.createdAt >= v[0].createdAt then
      PrependNewestFirst(x, v);
      [x] + v
    else
      var rest := InsertNewestFirst(x, v[1..]);
      assert v == [v[0]] + v[1..];
      PrependNewestFirst(v[0], rest);
      [v[0]] + rest
  }

  /** An element no older than every element of a newest-first list can
      go in front of it. */
  lemma PrependNewestFirst(y: RequestSummary, v: seq<RequestSummary>)
    requires NewestFirst(v)
    requires forall z :: z in v ==> y.createdAt >= z.createdAt
    ensures NewestFirst([y] + v)
  {
    var r := [y] + v;
    forall i, j | 0 <= i < j < |r| ensures r[i].createdAt >= r[j].createdAt {
      assert r[j] == v[j - 1];
      if i == 0 {
        assert v[j - 1] in v;
      } else {
        assert r[i] == v[i - 1];
      }
    }
  }

  function SortNewestFirst(v: seq<RequestSummary>): (r: seq<RequestSummary>)
    ensures NewestFirst(r)
    ensures multiset(r) == multiset(v)
  {
    if v == [] then []
    else
      assert v == [v[0]] + v[1..];
      InsertNewestFirst(v[0], SortNewestFirst(v[1..]))
  }

  /** `listMine`: exactly the caller's rows (each as often as it occurs),
      projected to name, status and createdAt, newest first. */
  function ListMine(rs: seq<PurchaseRequest>, owner: Num): (v: seq<RequestSummary>)
    ensures NewestFirst(v)
    ensures multiset(v) == multiset(Owned(rs, owner))
    ensures forall x :: x in v <==> exists i :: 0 <= i < |rs| && owner == Int(rs[i].userId) && x == Summarize(rs[i])
  {
    var v := SortNewestFirst(Owned(rs, owner));
    forall x ensures x in v <==> x in Owned(rs, owner) {
      assert x in v <==> x in multiset(v);
      assert x in Owned(rs, owner) <==> x in multiset(Owned(rs, owner));
    }
    v
  }

  // ---------------------------------------------------------------------
  // getMine

  /** `getMine`: the row only when both its id and its owner match. */
  function GetMine(rs: seq<PurchaseRequest>, id: Num, owner: Num): (r: Option<RequestDetail>)
    ensures r.Some? <==> exists i :: 0 <= i < |rs| && Matches(rs[i], id, Some(owner))
    ensures r.Some? ==> exists i :: 0 <= i < |rs| && Matches(rs[i], id, Some(owner)) && r.value == Detail(rs[i])
  {
    match FindRequest(rs, id, Some(owner))
    case None => None
    case Some(k) => Some(Detail(rs[k]))
  }

  /** A request that exists but belongs to someone else is answered exactly
      as a request that does not exist. */
  lemma GetMineHidesForeign(rs: seq<PurchaseRequest>, k: nat, caller: Num)
    requires RequestIdsIncrease(rs)
    requires k < |rs| && caller != Int(rs[k].userId)
    ensures GetMine(rs, Int(rs[k].id), caller) == None
    ensures GetMine(rs, Int(rs[k].id), caller) == GetMine(rs[..k] + rs[k + 1..], Int(rs[k].id), caller)
  {
    var rest := rs[..k] + rs[k + 1..];
    forall j | 0 <= j < |rest| ensures !Matches(rest[j], Int(rs[k].id), Some(caller)) {
      if j < k { assert rest[j] == rs[j]; } else { assert rest[j] == rs[j + 1]; }
    }
  }

  // ---------------------------------------------------------------------
  // summary

  /** How many rows have status `s`. */
  function CountStatus(rs: seq<PurchaseRequest>, s: string): (c: nat)
    ensures c <= |rs|
    ensures c == 0 <==> forall i :: 0 <= i < |rs| ==> rs[i].status != s
  {
    if rs == [] then 0
    else CountStatus(rs[..|rs| - 1], s) + (if rs[|rs| - 1].status == s then 1 else 0)
  }

  /** `summary`: one key per status present in the table, mapped to the
      number of rows with that status. */
  function Summary(rs: seq<PurchaseRequest>): (m: map<string, nat>)
    ensures forall s :: s in m <==> CountStatus(rs, s) > 0
    ensures forall s :: s in m ==> m[s] == CountStatus(rs, s)
  {
    if rs == [] then map[]
    else
      var prefix := rs[..|rs| - 1];
      var m := Summary(prefix);
      var s := rs[|rs| - 1].status;
      assert forall i :: 0 <= i < |prefix| ==> prefix[i] == rs[i];
      m[s := (if s in m then m[s] else 0) + 1]
  }

  /** The sum of a map's values. */
  ghost function SumValues(m: map<string, nat>): nat
    decreases |m|
  {
    if m == map[] then 0
    else
      assert m.Keys != {};
      var k :| k in m;
      assert |m - {k}| < |m| by { assert (m - {k}).Keys == m.Keys - {k}; }
      m[k] + SumValues(m - {k})
  }

  lemma {:induction false} SumValuesRemove(m: map<string, nat>, k: string)
    requires k in m
    ensures SumValues(m) == m[k] + SumValues(m - {k})
    decreases |m|
  {
    assert m.Keys != {};
    var k' :| k' in m && SumValues(m) == m[k'] + SumValues(m - {k'});
    if k' != k {
      assert (m - {k}).Keys == m.Keys - {k};
      assert (m - {k'}).Keys == m.Keys - {k'};
      SumValuesRemove(m - {k'}, k);
      SumValuesRemove(m - {k}, k');
      assert m - {k'} - {k} == m - {k} - {k'};
    }
  }

  /** Counting one more row with status `s` adds one to the sum. */
  lemma SumValuesIncrement(m: map<string, nat>, s: string)
    ensures SumValues(m[s := (if s in m then m[s] else 0) + 1]) == SumValues(m) + 1
  {
    var m' := m[s := (if s in m then m[s] else 0) + 1];
    SumValuesRemove(m', s);
    if s in m {
      SumValuesRemove(m, s);
      assert m' - {s} == m - {s};
    } else {
      assert m' - {s} == m;
    }
  }

  /** The summary of a table with one more row counts that row's status
      once more. */
  lemma SummarySnoc(rs: seq<PurchaseRequest>)
    requires rs != []
    ensures var m := Summary(rs[..|rs| - 1]);
            var s := rs[|rs| - 1].status;
            Summary(rs) == m[s := (if s in m then m[s] else 0) + 1]
  {
  }

  /** The counts of `summary` add up to the number of requests in the
      table. */
  lemma {:induction false} SummaryTotal(rs: seq<PurchaseRequest>)
    ensures SumValues(Summary(rs)) == |rs|
  {
    if rs != [] {
      var prefix := rs[..|rs| - 1];
      SummarySnoc(rs);
      SummaryTotal(prefix);
      SumValuesIncrement(Summary(prefix), rs[|rs| - 1].status);
    }
  }

  // ---------------------------------------------------------------------
  // create

  /** `create`: one request in DRAFT owned by the caller, then one join row
      to the given item. The two inserts are not one transaction: when the
      second fails the request row stays. */
  function CreateStep(t: Tables, name: string, userId: Num, item: Option<int>, now: int): (s: Step<CreateResult>)
    requires t.Valid()
    ensures s.after.Valid() && Evolves(t, s.after)
    ensures s.after.users == t.users && s.after.history == t.history && s.after.items == t.items
    ensures FindUser(t.users, userId).None? ==> s == Step(t, Thrown(RelatedRecordNotFound))
    ensures FindUser(t.users, userId).Some? ==>
              && |s.after.requests| == |t.requests| + 1
              && s.after.requests[..|t.requests|] == t.requests
              && var row := s.after.requests[|t.requests|];
              && !HasRequest(t.requests, row.id)
              && row.name == name && row.status == DRAFT && userId == Int(row.userId)
              && row.createdAt == now
    ensures s.outcome.Ok? <==> FindUser(t.users, userId).Some? && item.Some? && HasItem(t.items, item.value)
    ensures s.outcome.Ok? ==>
              var row := s.after.requests[|t.requests|];
              && s.outcome.value.purchaseRequestCreated == CreatedRequest(row.id, name, DRAFT, now)
              && s.outcome.value.requestItemCreated == RequestItem(row.id, item.value)
              && s.after.requestItems == t.requestItems + [RequestItem(row.id, item.value)]
    ensures s.outcome.Thrown? ==> s.after.requestItems == t.requestItems && s.outcome.error.status == None
  {
    match FindUser(t.users, userId)
    case None => Step(t, Thrown(RelatedRecordNotFound))
    case Some(u) =>
      var row := PurchaseRequest(NextRequestId(t.requests), name, DRAFT, t.users[u].id, now, now);
      assert HasUser(t.users, row.userId);
      AppendRequestKeepsValid(t, row);
      var withRequest := t.(requests := t.requests + [row]);
      if item.Some? && HasItem(t.items, item.value) then
        var link := RequestItem(row.id, item.value);
        AppendLinkKeepsValid(withRequest, link);
        Step(withRequest.(requestItems := t.requestItems + [link]),
             Ok(CreateResult(CreatedRequest(row.id, row.name, row.status, row.createdAt), link)))
      else
        Step(withRequest, Thrown(ConstraintViolation))
  }

  /** Appending a request with the next id, owned by an existing user,
      keeps the store's keys and foreign keys. */
  lemma AppendRequestKeepsValid(t: Tables, row: PurchaseRequest)
    requires t.Valid() && row.id == NextRequestId(t.requests) && HasUser(t.users, row.userId)
    ensures t.(requests := t.requests + [row]).Valid()
    ensures Evolves(t, t.(requests := t.requests + [row]))
    ensures (t.requests + [row])[..|t.requests|] == t.requests && !HasRequest(t.requests, row.id)
    ensures HasRequest(t.requests + [row], row.id)
  {
    var rs := t.requests + [row];
    AppendRequestKeepsOrder(t.requests, row);
    assert rs[..|t.requests|] == t.requests;
    assert rs[|t.requests|] == row;
    forall i | 0 <= i < |rs| ensures HasUser(t.users, rs[i].userId) {
      if i < |t.requests| {
        assert rs[i] == t.requests[i];
      }
    }
    forall i | 0 <= i < |t.history| ensures HasRequest(rs, t.history[i].purchaseRequestId) {
      assert HasRequest(t.requests, t.history[i].purchaseRequestId);
      var j :| 0 <= j < |t.requests| && t.requests[j].id == t.history[i].purchaseRequestId;
      assert rs[j] == t.requests[j];
    }
    forall i | 0 <= i < |t.requestItems| ensures HasRequest(rs, t.requestItems[i].purchaseRequestId) {
      assert HasRequest(t.requests, t.requestItems[i].purchaseRequestId);
      var j :| 0 <= j < |t.requests| && t.requests[j].id == t.requestItems[i].purchaseRequestId;
      assert rs[j] == t.requests[j];
    }
  }

  /** Appending a join row between an existing request and an existing
      item keeps the store's keys and foreign keys. */
  lemma AppendLinkKeepsValid(t: Tables, link: RequestItem)
    requires t.Valid() && HasRequest(t.requests, link.purchaseRequestId) && HasItem(t.items, link.itemId)
    ensures t.(requestItems := t.requestItems + [link]).Valid()
  {
    var ls := t.requestItems + [link];
    assert forall i :: 0 <= i < |t.requestItems| ==> ls[i] == t.requestItems[i];
  }

  method Create(db: Database, name: string, userId: Num, item: Option<int>, now: int) returns (out: Outcome<CreateResult>)
    requires db.Valid()
    modifies db
    ensures Step(db.Snapshot(), out) == CreateStep(old(db.Snapshot()), name, userId, item, now)
    ensures db.Valid()
  {
    // insert the request, connected to the caller's user row
    var owner := FindUser(db.users, userId);
    if owner.None? {
      return Thrown(RelatedRecordNotFound);
    }
    var created := PurchaseRequest(NextRequestId(db.requests), name, DRAFT, db.users[owner.value].id, now, now);
    db.requests := db.requests + [created];
    // insert the join row to the item, outside any transaction
    if item.None? || !HasItem(db.items, item.value) {
      return Thrown(ConstraintViolation);
    }
    var link := RequestItem(created.id, item.value);
    db.requestItems := db.requestItems + [link];
    out := Ok(CreateResult(CreatedRequest(created.id, created.name, created.status, created.createdAt), link));
  }

  // ---------------------------------------------------------------------
  // updateMine

  /** `updateMine`: on the row matching (id, owner), the name is written
      only when the given name is truthy and the status only when the given
      status is truthy, whatever its value. The store's `update` throws when
      no row matches, so the call fails with an error that has no status; the
      `null` result is never produced (the update returns a row, which has no
      `count`). */
  function UpdateMineStep(t: Tables, id: Num, owner: Num, name: Option<string>, status: Option<string>, now: int): (s: Step<Option<RequestDetail>>)
    requires t.Valid()
    ensures s.after.Valid() && Evolves(t, s.after)
    ensures s.outcome != Ok(None)
    ensures s.outcome.Thrown? <==> FindRequest(t.requests, id, Some(owner)).None?
    ensures s.outcome.Thrown? ==> s == Step(t, Thrown(RecordNotFound))
    ensures s.outcome.Ok? ==>
              var k := FindRequest(t.requests, id, Some(owner)).value;
              var old_ := t.requests[k];
              && s.after == t.(requests := t.requests[k := s.after.requests[k]])
              && s.after.requests[k].name == (if Truthy(name) then name.value else old_.name)
              && s.after.requests[k].status == (if Truthy(status) then status.value else old_.status)
              && s.after.requests[k].updatedAt == now
              && s.outcome.value == Some(Detail(s.after.requests[k]))
  {
    match FindRequest(t.requests, id, Some(owner))
    case None => Step(t, Thrown(RecordNotFound))
    case Some(k) =>
      var r := t.requests[k];
      var r' := r.(name := if Truthy(name) then name.value else r.name,
                   status := if Truthy(status) then status.value else r.status,
                   updatedAt := now);
      var t' := t.(requests := t.requests[k := r']);
      SetRowKeepsValid(t, k, r');
      Step(t', Ok(Some(Detail(r'))))
  }

  /** Rewriting a row in place, without touching its id or owner, keeps the
      store's keys and foreign keys. */
  lemma SetRowKeepsValid(t: Tables, k: nat, r': PurchaseRequest)
    requires t.Valid() && k < |t.requests|
    requires r'.id == t.requests[k].id && r'.userId == t.requests[k].userId && r'.createdAt == t.requests[k].createdAt
    ensures t.(requests := t.requests[k := r']).Valid()
    ensures Evolves(t, t.(requests := t.requests[k := r']))
  {
    var rs' := t.requests[k := r'];
    forall i | 0 <= i < |t.history| ensures HasRequest(rs', t.history[i].purchaseRequestId) {
      var j :| 0 <= j < |t.requests| && t.requests[j].id == t.history[i].purchaseRequestId;
      assert rs'[j].id == t.requests[j].id;
    }
    forall i | 0 <= i < |t.requestItems| ensures HasRequest(rs', t.requestItems[i].purchaseRequestId) {
      var j :| 0 <= j < |t.requests| && t.requests[j].id == t.requestItems[i].purchaseRequestId;
      assert rs'[j].id == t.requests[j].id;
    }
  }

  method UpdateMine(db: Database, id: Num, owner: Num, name: Option<string>, status: Option<string>, now: int)
    returns (out: Outcome<Option<RequestDetail>>)
    requires db.Valid()
    modifies db
    ensures Step(db.Snapshot(), out) == UpdateMineStep(old(db.Snapshot()), id, owner, name, status, now)
    ensures db.Valid()
  {
    // update by id and owner; write name and status only when truthy
    var k := FindRequest(db.requests, id, Some(owner));
    if k.None? {
      return Thrown(RecordNotFound);
    }
    var r := db.requests[k.value];
    if Truthy(name) {
      r := r.(name := name.value);
    }
    if Truthy(status) {
      r := r.(status := status.value);
    }
    r := r.(updatedAt := now);
    db.requests := db.requests[k.value := r];
    SetRowKeepsValid(old(db.Snapshot()), k.value, r);
    // read the row back by id
    var found := FindRequest(db.requests, id, None);
    FoundRequestIsUnique(db.requests, id, None);
    out := Ok(Some(Detail(db.requests[found.value])));
  }

  // ---------------------------------------------------------------------
  // submit

  /** `submit`: 404 and no change when no row matches (id, owner);
      otherwise the status becomes SUBMITTED whatever it was before. */
  function SubmitStep(t: Tables, id: Num, owner: Num, now: int): (s: Step<RequestDetail>)
    requires t.Valid()
    ensures s.after.Valid() && Evolves(t, s.after)
    ensures s.outcome.Thrown? <==> FindRequest(t.requests, id, Some(owner)).None?
    ensures s.outcome.Thrown? ==> s == Step(t, Thrown(NotFound))
    ensures s.outcome.Ok? ==>
              var k := FindRequest(t.requests, id, Some(owner)).value;
              var r := t.requests[k].(status := SUBMITTED, updatedAt := now);
              && s.after == t.(requests := t.requests[k := r])
              && s.outcome.value == Detail(r)
  {
    match FindRequest(t.requests, id, Some(owner))
    case None => Step(t, Thrown(NotFound))
    case Some(k) =>
      var r := t.requests[k].(status := SUBMITTED, updatedAt := now);
      SetRowKeepsValid(t, k, r);
      Step(t.(requests := t.requests[k := r]), Ok(Detail(r)))
  }

  method Submit(db: Database, id: Num, owner: Num, now: int) returns (out: Outcome<RequestDetail>)
    requires db.Valid()
    modifies db
    ensures Step(db.Snapshot(), out) == SubmitStep(old(db.Snapshot()), id, owner, now)
    ensures db.Valid()
  {
    // read the caller's row by id and owner
    var k := FindRequest(db.requests, id, Some(owner));
    if k.None? {
      return Thrown(NotFound);
    }
    var read := db.requests[k.value].status;
    // set SUBMITTED, only while the status is still the one just read
    if db.requests[k.value].status == read {
      db.requests := db.requests[k.value := db.requests[k.value].(status := SUBMITTED, updatedAt := now)];
    }
    SetRowKeepsValid(old(db.Snapshot()), k.value, db.requests[k.value]);
    // read the row back by id
    var found := FindRequest(db.requests, id, None);
    FoundRequestIsUnique(db.requests, id, None);
    out := Ok(Detail(db.requests[found.value]));
  }

  // ---------------------------------------------------------------------
  // approve and reject

  datatype Verdict = Approval | Rejection

  function Target(v: Verdict): string {
    match v
    case Approval => APPROVED
    case Rejection => REJECTED
  }

  /** The text of the history row each verdict appends. */
  function Change(v: Verdict): string {
    match v
    case Approval => "Purchase request changed to approved"
    case Rejection => "Purchase request changed to rejected"
  }

  /** The caller exists and has the APPROVER role. */
  predicate IsApprover(us: seq<User>, caller: Num) {
    match FindUser(us, caller)
    case None => false
    case Some(k) => us[k].role == APPROVER
  }

  /** With unique user ids, the role gate lets the caller through exactly
      when some user has the caller's id and the APPROVER role. */
  lemma ApproverByRole(us: seq<User>, caller: Num)
    requires UserIdsIncrease(us)
    ensures IsApprover(us, caller) <==> exists j :: 0 <= j < |us| && caller == Int(us[j].id) && us[j].role == APPROVER
  {
    if j :| 0 <= j < |us| && caller == Int(us[j].id) && us[j].role == APPROVER {
      var k := FindUser(us, caller).value;
      assert us[k].id == us[j].id;
      assert k == j;
    }
  }

  /** `approve` and `reject`: 403 unless the caller is an approver, checked
      before the request is looked up; then 404 when no request has the id;
      on either failure nothing changes. Otherwise the request (whoever owns
      it, whatever its status) gets the verdict's status, and exactly one
      history row naming it is appended. */
  function ReviewStep(t: Tables, id: Num, caller: Num, v: Verdict, now: int): (s: Step<ReviewedRequest>)
    requires t.Valid()
    ensures s.after.Valid() && Evolves(t, s.after)
    ensures s.outcome == Thrown(Forbidden) <==> !IsApprover(t.users, caller)
    ensures s.outcome == Thrown(NotFound) <==> IsApprover(t.users, caller) && FindRequest(t.requests, id, None).None?
    ensures s.outcome.Ok? <==> IsApprover(t.users, caller) && FindRequest(t.requests, id, None).Some?
    ensures s.outcome.Thrown? ==> s.after == t
    ensures s.outcome.Ok? ==>
              var k := FindRequest(t.requests, id, None).value;
              var r := t.requests[k].(status := Target(v), updatedAt := now);
              && s.after.requests == t.requests[k := r]
              && s.after.history == t.history + [HistoryRow(NextHistoryId(t.history), r.id, Change(v), now)]
              && s.after.users == t.users && s.after.requestItems == t.requestItems && s.after.items == t.items
              && s.outcome.value == ReviewedRequest(r.id, r.name, Target(v), r.createdAt, now)
  {
    if !IsApprover(t.users, caller) then Step(t, Thrown(Forbidden))
    else match FindRequest(t.requests, id, None)
      case None => Step(t, Thrown(NotFound))
      case Some(k) =>
        var r := t.requests[k].(status := Target(v), updatedAt := now);
        var row := HistoryRow(NextHistoryId(t.history), r.id, Change(v), now);
        ReviewKeepsValid(t, k, r, row);
        Step(t.(requests := t.requests[k := r], history := t.history + [row]),
             Ok(ReviewedRequest(r.id, r.name, r.status, r.createdAt, r.updatedAt)))
  }

  /** Rewriting one request and appending a history row about it keeps
      the store's keys and foreign keys. */
  lemma ReviewKeepsValid(t: Tables, k: nat, r: PurchaseRequest, row: HistoryRow)
    requires t.Valid() && k < |t.requests|
    requires r.id == t.requests[k].id && r.userId == t.requests[k].userId && r.createdAt == t.requests[k].createdAt
    requires row.id == NextHistoryId(t.history) && row.purchaseRequestId == r.id
    ensures t.(requests := t.requests[k := r], history := t.history + [row]).Valid()
    ensures Evolves(t, t.(requests := t.requests[k := r], history := t.history + [row]))
  {
    var t' := t.(requests := t.requests[k := r]);
    SetRowKeepsValid(t, k, r);
    assert t'.requests[k] == r;
    AppendHistoryKeepsValid(t', row);
    assert t'.(history := t.history + [row]) == t.(requests := t.requests[k := r], history := t.history + [row]);
  }

  /** Appending an audit row about an existing request keeps the store's
      keys and foreign keys. */
  lemma AppendHistoryKeepsValid(t: Tables, row: HistoryRow)
    requires t.Valid() && row.id == NextHistoryId(t.history) && HasRequest(t.requests, row.purchaseRequestId)
    ensures t.(history := t.history + [row]).Valid()
  {
    var hs := t.history + [row];
    if t.history != [] {
      assert forall j :: 0 <= j < |t.history| - 1 ==> t.history[j].id < t.history[|t.history| - 1].id;
    }
    assert forall i :: 0 <= i < |t.history| ==> hs[i] == t.history[i];
  }

  method Review(db: Database, id: Num, caller: Num, v: Verdict, now: int) returns (out: Outcome<ReviewedRequest>)
    requires db.Valid()
    modifies db
    ensures Step(db.Snapshot(), out) == ReviewStep(old(db.Snapshot()), id, caller, v, now)
    ensures db.Valid()
  {
    // read the caller's role
    var user := FindUser(db.users, caller);
    if user.None? || db.users[user.value].role != APPROVER {
      return Thrown(Forbidden);
    }
    // check that the request exists
    var k := FindRequest(db.requests, id, None);
    if k.None? {
      return Thrown(NotFound);
    }
    // write the verdict's status
    var updated := db.requests[k.value].(status := Target(v), updatedAt := now);
    db.requests := db.requests[k.value := updated];
    // record the verdict in the approval history
    db.history := db.history + [HistoryRow(NextHistoryId(db.history), updated.id, Change(v), now)];
    out := Ok(ReviewedRequest(updated.id, updated.name, updated.status, updated.createdAt, updated.updatedAt));
  }

  method Approve(db: Database, id: Num, caller: Num, now: int) returns (out: Outcome<ReviewedRequest>)
    requires db.Valid()
    modifies db
    ensures Step(db.Snapshot(), out) == ReviewStep(old(db.Snapshot()), id, caller, Approval, now)
    ensures db.Valid()
  {
    out := Review(db, id, caller, Approval, now);
  }

  method Reject(db: Database, id: Num, caller: Num, now: int) returns (out: Outcome<ReviewedRequest>)
    requires db.Valid()
    modifies db
    ensures Step(db.Snapshot(), out) == ReviewStep(old(db.Snapshot()), id, caller, Rejection, now)
    ensures db.Valid()
  {
    out := Review(db, id, caller, Rejection, now);
  }

  // ---------------------------------------------------------------------
  // createItem

  /** `createItem`: one new item row when both fields are given, and its
      name and cost are returned; a missing field is a required column left
      empty, which the store refuses with an error without a `status`,
      writing nothing. */
  function CreateItemStep(t: Tables, name: Option<string>, cost: Option<int>): (s: Step<ItemView>)
    requires t.Valid()
    ensures s.after.Valid() && Evolves(t, s.after)
    ensures s.outcome.Ok? <==> name.Some? && cost.Some?
    ensures s.outcome.Thrown? ==> s == Step(t, Thrown(MissingField))
    ensures s.outcome.Ok? ==>
              && s.after == t.(items := s.after.items)
              && |s.after.items| == |t.items| + 1 && s.after.items[..|t.items|] == t.items
              && !HasItem(t.items, s.after.items[|t.items|].id)
              && s.outcome == Ok(ItemView(s.after.items[|t.items|].name, s.after.items[|t.items|].cost))
              && s.outcome == Ok(ItemView(name.value, cost.value))
  {
    if name.None? || cost.None? then Step(t, Thrown(MissingField))
    else
      var x := Item(NextItemId(t.items), name.value, cost.value);
      var xs := t.items + [x];
      assert xs[..|t.items|] == t.items;
      assert ItemIdsIncrease(xs) && !HasItem(t.items, x.id) by {
        if t.items != [] {
          assert forall j :: 0 <= j < |t.items| - 1 ==> t.items[j].id < t.items[|t.items| - 1].id;
        }
      }
      assert forall i :: 0 <= i < |t.requestItems| ==> HasItem(xs, t.requestItems[i].itemId) by {
        forall i | 0 <= i < |t.requestItems| ensures HasItem(xs, t.requestItems[i].itemId) {
          var j :| 0 <= j < |t.items| && t.items[j].id == t.requestItems[i].itemId;
          assert xs[j] == t.items[j];
        }
      }
      Step(t.(items := xs), Ok(ItemView(name.value, cost.value)))
  }

  method CreateItem(db: Database, name: Option<string>, cost: Option<int>) returns (out: Outcome<ItemView>)
    requires db.Valid()
    modifies db
    ensures Step(db.Snapshot(), out) == CreateItemStep(old(db.Snapshot()), name, cost)
    ensures db.Valid()
  {
    if name.None? || cost.None? {
      out := Thrown(MissingField);
      return;
    }
    var created := Item(NextItemId(db.items), name.value, cost.value);
    db.items := db.items + [created];
    out := Ok(ItemView(created.name, created.cost));
  }
}
