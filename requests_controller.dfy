/** The HTTP handlers of the purchase-request routes. Each handler builds
    the service's arguments from the request, awaits the service, and turns
    its outcome into exactly one response; which failures keep their status
    and which collapse to 500 is decided here. */
module RequestsController {
  import opened Js
  import opened Store
  import opened RequestsService
  import opened Http

  // ---------------------------------------------------------------------
  // Arguments

  /** `{purchaseRequestId: Number(req.params.id), userId: req.userId}` */
  datatype Ids = Ids(purchaseRequestId: Num, userId: Num)

  /** The arguments of every handler on `/requests/:id`: the path parameter
      goes through `Number`, so the numeral of an id names that id, and any
      other character makes it NaN. */
  function IdsOf(idParam: string, userId: Num): (a: Ids)
    ensures a.userId == userId
    ensures forall n: nat :: idParam == StringOf(n) ==> a.purchaseRequestId == Int(n)
    ensures a.purchaseRequestId.NaN? <==> exists i :: 0 <= i < |idParam| && !IsDigit(idParam[i])
  {
    assert forall n: nat :: idParam == StringOf(n) ==> NumberOf(idParam) == Int(n) by {
      forall n: nat | idParam == StringOf(n) ensures NumberOf(idParam) == Int(n) {
        NumberOfStringOf(n);
      }
    }
    Ids(NumberOf(idParam), userId)
  }

  /** `const {name, item} = req.body` */
  datatype CreateBody = CreateBody(name: Option<string>, item: Option<int>)

  datatype CreateArgs = CreateArgs(name: string, userId: Num, item: Option<int>)

  /** `create` before the service call: a falsy name is answered 400
      "Missing name" and the service is not called; otherwise the name, the
      caller and the item (possibly absent) are passed on. */
  function CreateDispatch(body: CreateBody, userId: Num): (d: Dispatch<CreateArgs, CreateResult>)
    ensures d.Reply? <==> !Truthy(body.name)
    ensures d.Reply? ==> d.response == Response(400, ErrorJson("Missing name"))
    ensures d.Call? ==> d.args == CreateArgs(body.name.value, userId, body.item)
  {
    if !Truthy(body.name) then Reply(Response(400, ErrorJson("Missing name")))
    else Call(CreateArgs(body.name.value, userId, body.item))
  }

  // ---------------------------------------------------------------------
  // Replies

  /** The handlers that forward nothing (`listMine`, `create`, `summary`,
      `createItem`): the output is sent with `code`, and every thrown error,
      with or without a `status`, becomes 500 "Internal server error.". */
  function OutputOr500<T>(out: Outcome<T>, code: int): (r: Response<T>)
    ensures out.Ok? ==> r == Response(code, Json(out.value))
    ensures out.Thrown? ==> r == InternalError()
    ensures code != 500 ==> (r.status == 500 <==> out.Thrown?)
  {
    match out
    case Ok(v) => Response(code, Json(v))
    case Thrown(_) => InternalError()
  }

  /** `getMine` and `updateMine`: a null output is answered with
      `sendStatus(404)`, a row with 200, and every thrown error with 500. */
  function RowOr404(out: Outcome<Option<RequestDetail>>): (r: Response<RequestDetail>)
    ensures r.status == 404 <==> out == Ok(None)
    ensures r.status == 404 ==> r.body == StatusText("Not Found")
    ensures r.status == 200 <==> out.Ok? && out.value.Some?
    ensures r.status == 200 ==> r.body == Json(out.value.value)
    ensures r.status == 500 <==> out.Thrown?
    ensures r.status == 500 ==> r == InternalError()
  {
    match out
    case Ok(None) => SendStatus(404)
    case Ok(Some(row)) => Response(200, Json(row))
    case Thrown(_) => InternalError()
  }

  /** `submit`, `approve` and `reject`: an error whose `status` is truthy
      is answered with that status and its message, unchanged; an error
      without one becomes 500 "Internal server error.". */
  function Forwarded<T>(out: Outcome<T>): (r: Response<T>)
    ensures out.Ok? ==> r == Response(200, Json(out.value))
    ensures out.Thrown? && TruthyNum(out.error.status) ==>
              r == Response(out.error.status.value, ErrorJson(out.error.message))
    ensures out.Thrown? && !TruthyNum(out.error.status) ==> r == InternalError()
    ensures r.body.ErrorJson? && r.status != 500 ==> out.Thrown? && out.error.status == Some(r.status)
  {
    match out
    case Ok(v) => Response(200, Json(v))
    case Thrown(e) =>
      if TruthyNum(e.status) then Response(e.status.value, ErrorJson(e.message)) else InternalError()
  }

  // ---------------------------------------------------------------------
  // Each route, service and handler together

  /** Whether the caller owns a request with id `n`. */
  predicate OwnsRequest(rs: seq<PurchaseRequest>, n: nat, caller: Num) {
    exists j :: 0 <= j < |rs| && rs[j].id == n && caller == Int(rs[j].userId)
  }

  /** The lookup by id and owner finds a row exactly when the caller owns
      a request with that id. */
  lemma FoundIffOwned(rs: seq<PurchaseRequest>, n: nat, caller: Num)
    ensures FindRequest(rs, Int(n), Some(caller)).Some? <==> OwnsRequest(rs, n, caller)
  {
    if OwnsRequest(rs, n, caller) {
      var j :| 0 <= j < |rs| && rs[j].id == n && caller == Int(rs[j].userId);
      assert Matches(rs[j], Int(n), Some(caller));
    }
  }

  /** The lookup by id alone finds a row exactly when some request has
      that id. */
  lemma FoundIffExists(rs: seq<PurchaseRequest>, n: nat)
    ensures FindRequest(rs, Int(n), None).Some? <==> HasRequest(rs, n)
  {
    if HasRequest(rs, n) {
      var j :| 0 <= j < |rs| && rs[j].id == n;
      assert Matches(rs[j], Int(n), None);
    }
  }

  /** `GET /requests`: always 200, with exactly the caller's requests,
      newest first. */
  lemma ListMineResponds(rs: seq<PurchaseRequest>, caller: Num)
    ensures var r := OutputOr500(Ok(ListMine(rs, caller)), 200);
            && r.status == 200 && r.body.Json? && NewestFirst(r.body.payload)
            && forall x :: x in r.body.payload <==>
                 exists i :: 0 <= i < |rs| && caller == Int(rs[i].userId) && x == Summarize(rs[i])
  {
  }

  /** `GET /requests/:id`: 404 when the caller owns no request with that
      id, whether or not someone else does; otherwise 200 with the row. */
  lemma GetMineResponds(rs: seq<PurchaseRequest>, n: nat, caller: Num)
    ensures var a := IdsOf(StringOf(n), caller);
            var r := RowOr404(Ok(GetMine(rs, a.purchaseRequestId, a.userId)));
            && (r.status == 404 <==> !OwnsRequest(rs, n, caller))
            && (r.status == 200 <==> OwnsRequest(rs, n, caller))
  {
    NumberOfStringOf(n);
    FoundIffOwned(rs, n, caller);
  }

  /** `POST /requests`: 400 "Missing name", with the store untouched, when
      the name is falsy. Otherwise 201 with the new DRAFT request exactly
      when the caller exists and the item names an existing item, and 500
      in every other case, although the request row has been written
      whenever the caller exists. */
  lemma CreateResponds(t: Tables, body: CreateBody, caller: Num, now: int)
    requires t.Valid()
    ensures var d := CreateDispatch(body, caller);
            && (d.Reply? <==> !Truthy(body.name))
            && (d.Call? ==>
                  var s := CreateStep(t, d.args.name, d.args.userId, d.args.item, now);
                  var r := OutputOr500(s.outcome, 201);
                  && (r.status == 201 <==>
                        FindUser(t.users, caller).Some? && body.item.Some? && HasItem(t.items, body.item.value))
                  && (r.status == 201 ==>
                        && r.body.payload.purchaseRequestCreated.name == body.name.value
                        && r.body.payload.purchaseRequestCreated.status == DRAFT)
                  && (r.status != 201 ==> r == InternalError())
                  && (FindUser(t.users, caller).Some? ==> |s.after.requests| == |t.requests| + 1))
  {
  }

  /** `PATCH /requests/:id` never answers 404: a missing or foreign row
      makes the store's update throw an error without a status, which is
      answered 500; otherwise 200 with the updated row. */
  lemma UpdateMineResponds(t: Tables, n: nat, caller: Num, name: Option<string>, status: Option<string>, now: int)
    requires t.Valid()
    ensures var a := IdsOf(StringOf(n), caller);
            var r := RowOr404(UpdateMineStep(t, a.purchaseRequestId, a.userId, name, status, now).outcome);
            && r.status != 404
            && (r == InternalError() <==> !OwnsRequest(t.requests, n, caller))
            && (r.status == 200 <==> OwnsRequest(t.requests, n, caller))
  {
    NumberOfStringOf(n);
    FoundIffOwned(t.requests, n, caller);
  }

  /** `POST /requests/:id/submit`: 404 "Not found" exactly when the caller
      owns no request with that id; otherwise 200 with the row, now
      SUBMITTED. */
  lemma SubmitResponds(t: Tables, n: nat, caller: Num, now: int)
    requires t.Valid()
    ensures var a := IdsOf(StringOf(n), caller);
            var r := Forwarded(SubmitStep(t, a.purchaseRequestId, a.userId, now).outcome);
            && (r == Response(404, ErrorJson("Not found")) <==> !OwnsRequest(t.requests, n, caller))
            && (r.status == 200 <==> OwnsRequest(t.requests, n, caller))
            && (r.status == 200 ==> r.body.Json? && r.body.payload.status == SUBMITTED)
  {
    NumberOfStringOf(n);
    FoundIffOwned(t.requests, n, caller);
  }

  /** `POST /requests/:id/approve` and `/reject`: 403 "Forbidden" when the
      caller is not an approver, whether or not the request exists; then
      404 "Not found" when no request has the id, whoever owns it; otherwise
      200 with the row carrying the verdict's status. */
  lemma ReviewResponds(t: Tables, n: nat, caller: Num, v: Verdict, now: int)
    requires t.Valid()
    ensures var a := IdsOf(StringOf(n), caller);
            var r := Forwarded(ReviewStep(t, a.purchaseRequestId, a.userId, v, now).outcome);
            && (r == Response(403, ErrorJson("Forbidden")) <==> !IsApprover(t.users, caller))
            && (r == Response(404, ErrorJson("Not found")) <==> IsApprover(t.users, caller) && !HasRequest(t.requests, n))
            && (r.status == 200 <==> IsApprover(t.users, caller) && HasRequest(t.requests, n))
            && (r.status == 200 ==> r.body.Json? && r.body.payload.id == n && r.body.payload.status == Target(v))
  {
    NumberOfStringOf(n);
    FoundIffExists(t.requests, n);
  }

  /** `GET /requests/reports/summary`: always 200, with one key per status
      present and values that add up to the number of requests. */
  lemma SummaryResponds(rs: seq<PurchaseRequest>)
    ensures var r := OutputOr500(Ok(Summary(rs)), 200);
            && r.status == 200 && r.body.Json?
            && (forall s :: s in r.body.payload <==> CountStatus(rs, s) > 0)
            && SumValues(r.body.payload) == |rs|
  {
    SummaryTotal(rs);
  }

  /** `const {itemName, itemCost} = req.body` */
  datatype ItemBody = ItemBody(itemName: Option<string>, itemCost: Option<int>)

  /** `POST /requests/createItem`: 200 with the name and cost given, after
      one item row has been appended, when both fields are present; 500
      with nothing written when either is missing. */
  lemma CreateItemResponds(t: Tables, body: ItemBody)
    requires t.Valid()
    ensures var s := CreateItemStep(t, body.itemName, body.itemCost);
            var r := OutputOr500(s.outcome, 200);
            && (r.status == 200 <==> body.itemName.Some? && body.itemCost.Some?)
            && (r.status == 200 ==>
                  && r.body == Json(ItemView(body.itemName.value, body.itemCost.value))
                  && |s.after.items| == |t.items| + 1)
            && (r.status != 200 ==> r == InternalError() && s.after == t)
  {
  }
}
