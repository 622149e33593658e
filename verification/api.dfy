/** The REST client of the front-end: response-shape decoding, the paginated
    aggregation of `getClasses`/`getTeachers`, the bearer-token bookkeeping and
    the error message a failed request raises. The network is a page oracle
    `fetch` from a request to its outcome; browser storage is the `Session` record. */
module Api {
  import opened Wrappers
  import Seqs
  import JsText

  /** The `limit` sent with every page request after the first. */
  const PageSize: nat := 100
  /** Once `page` has been advanced past this value the loop gives up. */
  const PageCeiling: nat := 100

  /** One GET on a list endpoint: the resource path, the `school_id` scope and,
      for page requests, `page` and `limit`. */
  datatype ListRequest = ListRequest(resource: string, schoolId: Option<string>, page: Option<nat>, limit: Option<nat>)

  /** A decoded response body: a bare JSON array, an object that may carry
      `items`/`data` arrays and `total`/`count` numbers (absent or null fields are
      `None`), or anything else (`null`, a string, a number). */
  datatype PageBody<T> =
    | Bare(list: seq<T>)
    | Envelope(itemsField: Option<seq<T>>, dataField: Option<seq<T>>, totalField: Option<int>, countField: Option<int>)
    | Scalar

  /** The outcome of one request: it threw (network or HTTP error), or it returned a body. */
  datatype PageResult<T> = Failed | Received(body: PageBody<T>)

  /** What the aggregation returns together with every request it issued, in order. */
  datatype Fetched<T> = Fetched(items: seq<T>, requests: seq<ListRequest>)

  /** A number is truthy unless it is absent or 0. */
  predicate NumberTruthy(n: Option<int>)
  {
    n.Some? && n.value != 0
  }

  /** `body.items || body.data || []` (an array, even an empty one, is truthy). */
  function EnvelopeItems<T>(b: PageBody<T>): (r: seq<T>)
    requires b.Envelope?
    ensures b.itemsField.Some? ==> r == b.itemsField.value
    ensures b.itemsField.None? && b.dataField.Some? ==> r == b.dataField.value
    ensures b.itemsField.None? && b.dataField.None? ==> r == []
  {
    match b.itemsField
    case Some(xs) => xs
    case None => b.dataField.GetOr([])
  }

  /** `body.total || body.count || items.length`. */
  function DeclaredTotal<T>(b: PageBody<T>): (r: int)
    requires b.Envelope?
    ensures NumberTruthy(b.totalField) ==> r == b.totalField.value
    ensures !NumberTruthy(b.totalField) && NumberTruthy(b.countField) ==> r == b.countField.value
    ensures !NumberTruthy(b.totalField) && !NumberTruthy(b.countField) ==> r == |EnvelopeItems(b)|
  {
    if NumberTruthy(b.totalField) then b.totalField.value
    else if NumberTruthy(b.countField) then b.countField.value
    else |EnvelopeItems(b)|
  }

  /** The list a single response contributes: envelope items, the bare array, or
      nothing (also for a failed request). This is the whole of `getSchools`,
      `getSubjects` and `getStudents`, and the per-page rule of the aggregation. */
  function Items<T>(r: PageResult<T>): seq<T>
  {
    match r
    case Failed => []
    case Received(Bare(xs)) => xs
    case Received(Scalar) => []
    case Received(b) => EnvelopeItems(b)
  }

  /** `getSchools`, `getSubjects` and `getStudents` return exactly `Items` of
      their one response: a list present in the body, or nothing when the request
      failed or the body holds no list. */
  lemma ItemsComeFromBody<T>(r: PageResult<T>)
    ensures r.Failed? || r == Received(Scalar) ==> Items(r) == []
    ensures Items(r) != [] ==>
      r.Received? &&
      (match r.body
       case Bare(xs) => Items(r) == xs
       case Envelope(i, d, _, _) => (i.Some? && Items(r) == i.value) || (i.None? && d.Some? && Items(r) == d.value)
       case Scalar => false)
  {
  }

  /** The `school_id` parameter is sent only for a non-empty school id. */
  function Scope(schoolId: string): Option<string>
  {
    if schoolId != "" then Some(schoolId) else None
  }

  function FirstRequest(resource: string, schoolId: string): ListRequest
  {
    ListRequest(resource, Scope(schoolId), None, None)
  }

  function PageRequest(resource: string, schoolId: string, page: nat): ListRequest
  {
    ListRequest(resource, Scope(schoolId), Some(page), Some(PageSize))
  }

  /** The page loop as a recursive definition: fetch `page`, append its items,
      and go on only after a full page that leaves the declared total unreached,
      while the page counter stays within the ceiling. */
  function Walk<T>(fetch: ListRequest -> PageResult<T>, resource: string, schoolId: string,
                   page: nat, acc: seq<T>, total: int): Fetched<T>
    requires 2 <= page <= PageCeiling
    decreases PageCeiling - page
  {
    var req := PageRequest(resource, schoolId, page);
    var items := Items(fetch(req));
    if |items| == 0 then Fetched(acc, [req])
    else if page + 1 > PageCeiling || |items| != PageSize || |acc + items| >= total then
      Fetched(acc + items, [req])
    else
      var rest := Walk(fetch, resource, schoolId, page + 1, acc + items, total);
      Fetched(rest.items, [req] + rest.requests)
  }

  /** `getClasses(schoolId)` / `getTeachers(schoolId)` as a definition: decode the
      first response; only an envelope whose declared total exceeds a non-empty
      first page leads to further pages. */
  function Aggregate<T>(fetch: ListRequest -> PageResult<T>, resource: string, schoolId: string): Fetched<T>
  {
    var first := FirstRequest(resource, schoolId);
    var res := fetch(first);
    if res.Received? && res.body.Envelope? then
      var items := EnvelopeItems(res.body);
      var total := DeclaredTotal(res.body);
      if total > |items| && |items| > 0 then
        var w := Walk(fetch, resource, schoolId, 2, items, total);
        Fetched(w.items, [first] + w.requests)
      else Fetched(items, [first])
    else Fetched(Items(res), [first])
  }

  /** `reqs` issued before a run of the page loop that produced `f`. */
  function After<T>(reqs: seq<ListRequest>, f: Fetched<T>): Fetched<T>
  {
    Fetched(f.items, reqs + f.requests)
  }

  /** The aggregation of `getClasses`/`getTeachers`: decode the first response,
      and run the page loop only when the declared total exceeds a non-empty
      first page. Returns the accumulated list and the requests issued. */
  method FetchAll<T>(fetch: ListRequest -> PageResult<T>, resource: string, schoolId: string)
    returns (all: seq<T>, requests: seq<ListRequest>)
    ensures Fetched(all, requests) == Aggregate(fetch, resource, schoolId)
    ensures 1 <= |requests| <= PageCeiling
  {
    var first := FirstRequest(resource, schoolId);
    var data := fetch(first);
    all := [];
    requests := [first];
    if data.Received? && data.body.Envelope? {
      all := EnvelopeItems(data.body);
      var total := DeclaredTotal(data.body);
      if total > |all| && |all| > 0 {
        var pages;
        all, pages := PageLoop(fetch, resource, schoolId, all, total);
        requests := requests + pages;
      }
    } else if data.Received? && data.body.Bare? {
      all := data.body.list;
    }
  }

  /** The `while (hasMore && allClasses.length < total)` loop with its `page`
      counter; each iteration is one `NextPage`. */
  method PageLoop<T>(fetch: ListRequest -> PageResult<T>, resource: string, schoolId: string,
                     first: seq<T>, total: int)
    returns (all: seq<T>, requests: seq<ListRequest>)
    requires total > |first|
    ensures Fetched(all, requests) == Walk(fetch, resource, schoolId, 2, first, total)
    ensures 1 <= |requests| <= PageCeiling - 1
  {
    ghost var goal := Walk(fetch, resource, schoolId, 2, first, total);
    all := first;
    requests := [];
    var page: nat := 2;
    var hasMore := true;
    assert After([], goal) == goal;
    while hasMore && |all| < total
      invariant hasMore ==> 2 <= page <= PageCeiling && |requests| == page - 2 && |all| < total
      invariant !hasMore ==> 1 <= |requests| <= PageCeiling - 1
      invariant goal == Pending(fetch, resource, schoolId, total, hasMore, page, all, requests)
      decreases if hasMore then PageCeiling + 1 - page else 0
    {
      all, page, hasMore, requests := NextPage(fetch, resource, schoolId, page, all, total, requests);
    }
  }

  /** What the page loop will have produced once it ends, given its current
      state: the walk still to come, or what it holds when it has stopped. */
  ghost function Pending<T>(fetch: ListRequest -> PageResult<T>, resource: string, schoolId: string, total: int,
                            hasMore: bool, page: nat, all: seq<T>, requests: seq<ListRequest>): Fetched<T>
  {
    if hasMore && 2 <= page <= PageCeiling then After(requests, Walk(fetch, resource, schoolId, page, all, total))
    else Fetched(all, requests)
  }

  /** One iteration of the page loop: request `page`; a failed request or an
      empty page ends the loop; otherwise the items are appended, `page` moves
      on, and the loop goes on only after a full page that leaves the total
      unreached, unless the `page > 100` break ends it. What the loop will
      produce is unchanged. */
  method NextPage<T>(fetch: ListRequest -> PageResult<T>, resource: string, schoolId: string,
                     page: nat, acc: seq<T>, total: int, before: seq<ListRequest>)
    returns (all: seq<T>, next: nat, hasMore: bool, requests: seq<ListRequest>)
    requires 2 <= page <= PageCeiling
    ensures requests == before + [PageRequest(resource, schoolId, page)]
    ensures hasMore ==> next == page + 1 <= PageCeiling && |all| < total
    ensures Pending(fetch, resource, schoolId, total, hasMore, next, all, requests)
         == Pending(fetch, resource, schoolId, total, true, page, acc, before)
  {
    var req := PageRequest(resource, schoolId, page);
    var pageData := fetch(req);
    var pageItems := Items(pageData);
    requests := before + [req];
    all, next := acc, page;
    if pageData.Failed? {
      hasMore := false;
    } else {
      if |pageItems| > 0 {
        all := acc + pageItems;
        next := page + 1;
        hasMore := |pageItems| == PageSize && |all| < total;
      } else {
        hasMore := false;
      }
      if next > PageCeiling {
        hasMore := false;
      }
    }
    if hasMore {
      var rest := Walk(fetch, resource, schoolId, next, all, total);
      assert before + ([req] + rest.requests) == requests + rest.requests;
    }
  }

  /** The items each issued page request contributed, in request order. */
  function PageLists<T>(fetch: ListRequest -> PageResult<T>, reqs: seq<ListRequest>): (r: seq<seq<T>>)
    ensures |r| == |reqs|
    decreases |reqs|
  {
    if |reqs| == 0 then [] else [Items(fetch(reqs[0]))] + PageLists(fetch, reqs[1..])
  }

  /** A run of the page loop started at `page` requests consecutive pages
      `page, page+1, …`, never past the ceiling, each with the same scope and
      `limit=100`. */
  lemma {:induction false} WalkRequests<T>(fetch: ListRequest -> PageResult<T>, resource: string, schoolId: string,
                                           page: nat, acc: seq<T>, total: int)
    requires 2 <= page <= PageCeiling
    ensures var w := Walk(fetch, resource, schoolId, page, acc, total);
      && 1 <= |w.requests| <= PageCeiling + 1 - page
      && (forall i :: 0 <= i < |w.requests| ==> w.requests[i] == PageRequest(resource, schoolId, page + i))
    decreases PageCeiling - page
  {
    var items := Items(fetch(PageRequest(resource, schoolId, page)));
    if !(|items| == 0 || page + 1 > PageCeiling || |items| != PageSize || |acc + items| >= total) {
      WalkRequests(fetch, resource, schoolId, page + 1, acc + items, total);
    }
  }

  /** The result of a run is the accumulator followed by the pages' items in
      fetch order. */
  lemma {:induction false} WalkItems<T>(fetch: ListRequest -> PageResult<T>, resource: string, schoolId: string,
                                        page: nat, acc: seq<T>, total: int)
    requires 2 <= page <= PageCeiling
    ensures var w := Walk(fetch, resource, schoolId, page, acc, total);
      w.items == acc + Seqs.Flatten(PageLists(fetch, w.requests))
    decreases PageCeiling - page
  {
    var req := PageRequest(resource, schoolId, page);
    var items := Items(fetch(req));
    var w := Walk(fetch, resource, schoolId, page, acc, total);
    if |items| == 0 || page + 1 > PageCeiling || |items| != PageSize || |acc + items| >= total {
      assert PageLists(fetch, w.requests) == [items];
      assert Seqs.Flatten([items]) == items;
    } else {
      var rest := Walk(fetch, resource, schoolId, page + 1, acc + items, total);
      WalkItems(fetch, resource, schoolId, page + 1, acc + items, total);
      assert w.requests[1..] == rest.requests;
      assert Seqs.Flatten(PageLists(fetch, w.requests)) == items + Seqs.Flatten(PageLists(fetch, rest.requests));
    }
  }

  /** Every request but the last brought a full page of 100 items. */
  predicate FullPages<T>(fetch: ListRequest -> PageResult<T>, reqs: seq<ListRequest>)
  {
    forall i :: 0 <= i < |reqs| - 1 ==> |Items(fetch(reqs[i]))| == PageSize
  }

  /** A full page in front of a run keeps every page but the last full. */
  lemma FullPagesCons<T>(fetch: ListRequest -> PageResult<T>, req: ListRequest, rest: seq<ListRequest>)
    requires |Items(fetch(req))| == PageSize && FullPages(fetch, rest) && |rest| >= 1
    ensures FullPages(fetch, [req] + rest)
    ensures ([req] + rest)[|rest|] == rest[|rest| - 1]
  {
    var r := [req] + rest;
    forall i | 0 <= i < |r| - 1 ensures |Items(fetch(r[i]))| == PageSize {
      if i > 0 {
        assert r[i] == rest[i - 1];
      }
    }
  }

  /** Starting from `accLen` items, a run of `n` full pages stayed below the
      declared total after each page but the last. */
  predicate BelowTotalBeforeLast(n: nat, accLen: int, total: int)
    decreases n
  {
    n <= 1 || (accLen + PageSize < total && BelowTotalBeforeLast(n - 1, accLen + PageSize, total))
  }

  /** Every page of a run but the last was a full page of 100 items after
      which the collected count was still below the declared total, and the
      last one ended the loop: it failed or was empty, was short, reached the
      declared total, or was the ceiling page. */
  lemma {:induction false} WalkStops<T>(fetch: ListRequest -> PageResult<T>, resource: string, schoolId: string,
                                        page: nat, acc: seq<T>, total: int)
    requires 2 <= page <= PageCeiling
    ensures var w := Walk(fetch, resource, schoolId, page, acc, total);
      && |w.requests| >= 1
      && FullPages(fetch, w.requests)
      && BelowTotalBeforeLast(|w.requests|, |acc|, total)
      && (var lastItems := Items(fetch(w.requests[|w.requests| - 1]));
          || |lastItems| == 0
          || |lastItems| != PageSize
          || |w.items| >= total
          || page + |w.requests| - 1 == PageCeiling)
    decreases PageCeiling - page
  {
    var req := PageRequest(resource, schoolId, page);
    var items := Items(fetch(req));
    if !(|items| == 0 || page + 1 > PageCeiling || |items| != PageSize || |acc + items| >= total) {
      var rest := Walk(fetch, resource, schoolId, page + 1, acc + items, total);
      WalkStops(fetch, resource, schoolId, page + 1, acc + items, total);
      assert Walk(fetch, resource, schoolId, page, acc, total) == Fetched(rest.items, [req] + rest.requests);
      FullPagesCons(fetch, req, rest.requests);
    }
  }

  /** Whole-call guarantees of `getClasses`/`getTeachers`: at most 100 requests;
      the first carries only the scope; request k (k >= 1) asks for page k+1 with
      `limit=100` and the same scope; and the result is the first response's list
      followed by every later page's items in fetch order (a failed page adds nothing). */
  lemma AggregateShape<T>(fetch: ListRequest -> PageResult<T>, resource: string, schoolId: string)
    ensures var a := Aggregate(fetch, resource, schoolId);
      && 1 <= |a.requests| <= PageCeiling
      && a.requests[0] == FirstRequest(resource, schoolId)
      && (forall k :: 1 <= k < |a.requests| ==> a.requests[k] == PageRequest(resource, schoolId, k + 1))
      && (forall k :: 0 <= k < |a.requests| ==> a.requests[k].schoolId == Scope(schoolId))
      && a.items == Items(fetch(a.requests[0])) + Seqs.Flatten(PageLists(fetch, a.requests[1..]))
  {
    var a := Aggregate(fetch, resource, schoolId);
    var res := fetch(FirstRequest(resource, schoolId));
    if res.Received? && res.body.Envelope? && DeclaredTotal(res.body) > |EnvelopeItems(res.body)| && |EnvelopeItems(res.body)| > 0 {
      var items := EnvelopeItems(res.body);
      var w := Walk(fetch, resource, schoolId, 2, items, DeclaredTotal(res.body));
      WalkRequests(fetch, resource, schoolId, 2, items, DeclaredTotal(res.body));
      WalkItems(fetch, resource, schoolId, 2, items, DeclaredTotal(res.body));
      assert a.requests[1..] == w.requests;
      forall k | 1 <= k < |a.requests|
        ensures a.requests[k] == PageRequest(resource, schoolId, k + 1)
      {
        assert a.requests[k] == w.requests[k - 1];
      }
    } else {
      assert a.requests[1..] == [];
    }
  }

  /** No page beyond the first is requested when the first response is a bare
      array (returned as is), when the declared total does not exceed the first
      page, or when the first page is empty. */
  lemma SingleRequestCases<T>(fetch: ListRequest -> PageResult<T>, resource: string, schoolId: string)
    requires var res := fetch(FirstRequest(resource, schoolId));
      || !(res.Received? && res.body.Envelope?)
      || DeclaredTotal(res.body) <= |EnvelopeItems(res.body)|
      || |EnvelopeItems(res.body)| == 0
    ensures var a := Aggregate(fetch, resource, schoolId);
      && a.requests == [FirstRequest(resource, schoolId)]
      && a.items == Items(fetch(FirstRequest(resource, schoolId)))
  {
  }

  /** A page request that failed or came back empty is the last one issued. */
  lemma EmptyPageIsLast<T>(fetch: ListRequest -> PageResult<T>, resource: string, schoolId: string, k: nat)
    requires var a := Aggregate(fetch, resource, schoolId);
      1 <= k < |a.requests| && |Items(fetch(a.requests[k]))| == 0
    ensures k == |Aggregate(fetch, resource, schoolId).requests| - 1
  {
    var a := Aggregate(fetch, resource, schoolId);
    var res := fetch(FirstRequest(resource, schoolId));
    var w := Walk(fetch, resource, schoolId, 2, EnvelopeItems(res.body), DeclaredTotal(res.body));
    WalkStops(fetch, resource, schoolId, 2, EnvelopeItems(res.body), DeclaredTotal(res.body));
    assert a.requests[k] == w.requests[k - 1];
  }

  // ---------------------------------------------------------------- tokens

  /** The client's in-memory token and the `access_token` / `refresh_token`
      entries of browser storage (`None` = key absent). */
  datatype Session = Session(token: Option<string>, accessKey: Option<string>, refreshKey: Option<string>)

  predicate StringTruthy(s: Option<string>)
  {
    s.Some? && s.value != ""
  }

  /** `setToken(token)`: a truthy token is stored and the refresh key is kept (or
      set to ""); a null or empty token removes both keys. */
  function SetToken(s: Session, token: Option<string>): (r: Session)
    ensures r.token == token
    ensures StringTruthy(token) ==> r.accessKey == token
    ensures StringTruthy(token) && StringTruthy(s.refreshKey) ==> r.refreshKey == s.refreshKey
    ensures StringTruthy(token) && !StringTruthy(s.refreshKey) ==> r.refreshKey == Some("")
    ensures !StringTruthy(token) ==> r.accessKey.None? && r.refreshKey.None?
  {
    if StringTruthy(token) then
      Session(token, token, Some(if StringTruthy(s.refreshKey) then s.refreshKey.value else ""))
    else Session(token, None, None)
  }

  /** Setting the same token twice has the effect of setting it once. */
  lemma SetTokenIdempotent(s: Session, token: Option<string>)
    ensures SetToken(SetToken(s, token), token) == SetToken(s, token)
  {
  }

  /** The reply to an authentication call (`/auth/login`, `/auth/register`,
      `/auth/refresh-token`, `/auth/logout`). */
  datatype AuthReply = Tokens(access: string, refresh: string) | HttpFailure(status: nat) | NetworkFailure

  /** What a non-OK response does to the session before the error is thrown:
      a 401 clears both tokens. */
  function AfterReply(s: Session, reply: AuthReply): (r: Session)
    ensures reply.HttpFailure? && reply.status == 401 ==> r.token.None? && r.accessKey.None? && r.refreshKey.None?
    ensures !(reply.HttpFailure? && reply.status == 401) ==> r == s
  {
    if reply.HttpFailure? && reply.status == 401 then SetToken(s, None) else s
  }

  /** The session after an authentication call, whether it succeeded, and whether
      a request was sent at all. */
  datatype Call = Call(session: Session, succeeded: bool, requested: bool)

  /** `login`/`register`: on success store the access token, then the refresh token. */
  function Authenticate(s: Session, reply: AuthReply): (r: Call)
    ensures r.requested
    ensures r.succeeded <==> reply.Tokens?
    ensures reply.Tokens? ==> r.session.token == Some(reply.access) && r.session.refreshKey == Some(reply.refresh)
    ensures reply.Tokens? && reply.access != "" ==> r.session.accessKey == Some(reply.access)
    ensures reply.Tokens? && reply.access == "" ==> r.session.accessKey.None?
    ensures !reply.Tokens? ==> r.session == AfterReply(s, reply)
  {
    match reply
    case Tokens(access, refresh) =>
      Call(SetToken(s, Some(access)).(refreshKey := Some(refresh)), true, true)
    case _ => Call(AfterReply(s, reply), false, true)
  }

  /** `refreshToken`: without a stored refresh token it throws before any request. */
  function RefreshToken(s: Session, reply: AuthReply): (r: Call)
    ensures !r.requested <==> !StringTruthy(s.refreshKey)
    ensures !r.requested ==> r.session == s && !r.succeeded
  {
    if !StringTruthy(s.refreshKey) then Call(s, false, false)
    else Authenticate(s, reply)
  }

  /** `logout`: whatever the server answers, the token is cleared and both keys removed. */
  function Logout(s: Session, reply: AuthReply): (r: Session)
    ensures r.token.None? && r.accessKey.None? && r.refreshKey.None?
  {
    SetToken(AfterReply(s, reply), None).(refreshKey := None)
  }

  /** The `Authorization` header `request` attaches: only for a truthy token. */
  function AuthorizationHeader(s: Session): (r: Option<string>)
    ensures r.Some? <==> StringTruthy(s.token)
    ensures r.Some? ==> r.value == "Bearer " + s.token.value
  {
    if StringTruthy(s.token) then Some("Bearer " + s.token.value) else None
  }

  /** After a successful login or register with a non-empty access token every
      later request is authorised with that token; after logout, or after any
      401, no request is. */
  lemma AuthorizationLifecycle(s: Session, reply: AuthReply, any: AuthReply)
    ensures reply.Tokens? && reply.access != "" ==>
      AuthorizationHeader(Authenticate(s, reply).session) == Some("Bearer " + reply.access)
    ensures AuthorizationHeader(Logout(s, any)) == None
    ensures any.HttpFailure? && any.status == 401 ==> AuthorizationHeader(Authenticate(s, any).session) == None
  {
  }

  // ---------------------------------------------------------------- errors

  /** One FastAPI validation issue: `loc` (possibly missing) and `msg`. */
  datatype ValidationIssue = ValidationIssue(loc: Option<seq<string>>, msg: string)

  /** The `detail` field of an error body: absent or falsy, an array of issues, a
      string, or some other truthy JSON value (kept as its `JSON.stringify` text). */
  datatype Detail = NoDetail | IssueList(issues: seq<ValidationIssue>) | DetailText(text: string) | DetailJson(json: string)

  /** The body of a non-OK response: not JSON, or a JSON object with its `detail`,
      its `message` ("" when absent) and its own `JSON.stringify` text. */
  datatype ErrorBody = Unparsable | ErrorJson(detail: Detail, message: string, json: string)

  /** `${e.loc?.join('.')}: ${e.msg}`; a missing `loc` renders as "undefined". */
  function IssueText(e: ValidationIssue): (r: string)
    ensures JsText.EndsWith(r, ": " + e.msg)
    ensures e.loc.Some? ==> r == JsText.Join(e.loc.value, ".") + ": " + e.msg
    ensures e.loc.None? ==> r == "undefined: " + e.msg
  {
    var loc := match e.loc case Some(parts) => JsText.Join(parts, ".") case None => "undefined";
    loc + ": " + e.msg
  }

  /** `detail.map(...)`: one text per issue, in the order of the issues. */
  function IssueTexts(issues: seq<ValidationIssue>): (r: seq<string>)
    ensures |r| == |issues|
    ensures forall i :: 0 <= i < |issues| ==> r[i] == IssueText(issues[i])
  {
    seq(|issues|, i requires 0 <= i < |issues| => IssueText(issues[i]))
  }

  const GenericHttpPrefix: string := "HTTP error! status: "
  const Message500: string := "Бэкенд серверде қате пайда болды (500). Demo режимге ауысамыз."
  const Message404: string := "Эндпоинт табылмады (404)"
  const Message403: string := "Доступ запрещен (403)"
  const Message422: string := "Деректер дұрыс емес (422). Барлық өрістерді тексеріңіз."

  /** The message of the error `request` throws for a non-OK response. */
  function ErrorMessage(status: nat, body: ErrorBody): (r: string)
    ensures body.Unparsable? && status !in {500, 404, 403, 422} ==> r == GenericHttpPrefix + JsText.NatToString(status)
    ensures body.Unparsable? && status == 500 ==> r == Message500
    ensures body.Unparsable? && status == 404 ==> r == Message404
    ensures body.Unparsable? && status == 403 ==> r == Message403
    ensures body.Unparsable? && status == 422 ==> r == Message422
    ensures body.ErrorJson? && body.detail.DetailText? && body.detail.text != "" ==> r == body.detail.text
    ensures body.ErrorJson? && body.detail.IssueList? ==> r == JsText.Join(IssueTexts(body.detail.issues), ", ")
    ensures body.ErrorJson? && body.detail.DetailJson? ==> r == body.detail.json
    ensures body.ErrorJson? && body.detail.IssueList? ==>
      forall i :: 0 <= i < |body.detail.issues| ==> JsText.Contains(r, body.detail.issues[i].msg)
    ensures body.ErrorJson? && !DetailTruthy(body.detail) && body.message != "" ==> r == body.message
    ensures body.ErrorJson? && !DetailTruthy(body.detail) && body.message == "" ==> r == body.json
  {
    match body
    case Unparsable =>
      if status == 500 then Message500
      else if status == 404 then Message404
      else if status == 403 then Message403
      else if status == 422 then Message422
      else GenericHttpPrefix + JsText.NatToString(status)
    case ErrorJson(detail, message, json) =>
      match detail
      case IssueList(issues) =>
        var texts := IssueTexts(issues);
        var r := JsText.Join(texts, ", ");
        assert forall i :: 0 <= i < |issues| ==> JsText.Contains(r, issues[i].msg) by {
          forall i | 0 <= i < |issues| ensures JsText.Contains(r, issues[i].msg) {
            JsText.JoinContainsPart(texts, ", ", i);
            JsText.EndsWithContained(texts[i], ": " + issues[i].msg, r, issues[i].msg);
          }
        }
        r
      case DetailText(text) =>
        if text != "" then text else if message != "" then message else json
      case DetailJson(j) => j
      case NoDetail => if message != "" then message else json
  }

  /** `if (error.detail)`: an array or any other value is truthy; a string only when non-empty. */
  predicate DetailTruthy(d: Detail)
  {
    match d
    case NoDetail => false
    case DetailText(t) => t != ""
    case _ => true
  }

  /** The status of the generic message reads back with `parseInt`. */
  lemma GenericMessageCarriesStatus(status: nat)
    requires status !in {500, 404, 403, 422}
    ensures var m := ErrorMessage(status, Unparsable);
      JsText.StartsWith(m, GenericHttpPrefix) && JsText.ParseInt(m[|GenericHttpPrefix|..]) == Some(status)
  {
    var m := ErrorMessage(status, Unparsable);
    assert m[|GenericHttpPrefix|..] == JsText.NatToString(status);
    JsText.ParseIntOfIntToString(status);
  }

  const UnreachableMessage: string := "Бэкенд серверге қол жеткізу мүмкін емес. Бэкендтің іске қосылғанын тексеріңіз."

  /** The outer `catch` of `request`: an error whose message mentions
      "Failed to fetch" or "CORS" is replaced by the connectivity message. */
  function SurfacedMessage(m: string): (r: string)
    ensures r == UnreachableMessage || r == m
    ensures r == m <== !JsText.Contains(m, "Failed to fetch") && !JsText.Contains(m, "CORS")
    ensures r == UnreachableMessage <== JsText.Contains(m, "Failed to fetch") || JsText.Contains(m, "CORS")
  {
    if JsText.Contains(m, "Failed to fetch") || JsText.Contains(m, "CORS") then UnreachableMessage else m
  }
}
