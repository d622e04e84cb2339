// The query handling of internal/controller/attendance_controller.go: the
// page and limit parameters, the offset and page count, the admin filter bag
// and the conversion of a page of records into responses.

module AttendanceController {
  import opened Common
  import opened AttendanceModel
  import opened AttendanceService

  const MaxInt64: int := 0x7FFF_FFFF_FFFF_FFFF
  const MinInt64: int := -0x8000_0000_0000_0000
  const MaxUint32: int := 0xFFFF_FFFF

  /** The query string of a request: parameter name to its (first) value. */
  type Query = map<string, string>

  /** c.Query: the value, or "" when the parameter is absent. */
  function QueryValue(q: Query, key: string): (v: string)
    ensures key in q ==> v == q[key]
    ensures key !in q ==> v == ""
  {
    if key in q then q[key] else ""
  }

  /** c.DefaultQuery: the default only when the parameter is absent; a
      present but empty parameter stays empty. */
  function DefaultQuery(q: Query, key: string, default: string): (v: string)
    ensures key in q ==> v == q[key]
    ensures key !in q ==> v == default
  {
    if key in q then q[key] else default
  }

  predicate IsDigit(c: char) { '0' <= c <= '9' }

  predicate AllDigits(s: string)
  {
    forall i :: 0 <= i < |s| ==> IsDigit(s[i])
  }

  /** The value of a string of decimal digits. */
  function DigitsValue(s: string): (n: nat)
    requires AllDigits(s)
  {
    if s == [] then 0
    else DigitsValue(s[..|s| - 1]) * 10 + (s[|s| - 1] - '0') as nat
  }

  /** The decimal rendering of a natural number (the inverse of DigitsValue). */
  function Decimal(n: nat): (s: string)
    ensures AllDigits(s) && s != []
  {
    if n < 10 then [('0' as int + n) as char]
    else Decimal(n / 10) + [('0' as int + n % 10) as char]
  }

  lemma {:induction false} DigitsValueOfDecimal(n: nat)
    ensures DigitsValue(Decimal(n)) == n
  {
    var s := Decimal(n);
    if n >= 10 {
      DigitsValueOfDecimal(n / 10);
      assert s[..|s| - 1] == Decimal(n / 10);
    }
  }

  /** Optional sign followed by at least one decimal digit. */
  predicate IsDecimalInteger(s: string)
  {
    if s != [] && (s[0] == '+' || s[0] == '-') then s[1..] != [] && AllDigits(s[1..])
    else s != [] && AllDigits(s)
  }

  /** The int64 value strconv reports for an out-of-range number: the
      nearest bound. */
  function Sat64(x: int): (y: int)
    ensures MinInt64 <= y <= MaxInt64
    ensures MinInt64 <= x <= MaxInt64 ==> y == x
    ensures x > MaxInt64 ==> y == MaxInt64
    ensures x < MinInt64 ==> y == MinInt64
  {
    if x > MaxInt64 then MaxInt64 else if x < MinInt64 then MinInt64 else x
  }

  /** strconv.Atoi with its error ignored, on a 64-bit platform: the value of
      a well-formed decimal integer (optional sign, then digits) saturated to
      the int64 range, and 0 for anything else (including ""). */
  function Atoi(s: string): (n: int)
    ensures MinInt64 <= n <= MaxInt64
    ensures !IsDecimalInteger(s) ==> n == 0
    ensures IsDecimalInteger(s) && s[0] == '-' ==> n == Sat64(-(DigitsValue(s[1..]) as int))
    ensures IsDecimalInteger(s) && s[0] == '+' ==> n == Sat64(DigitsValue(s[1..]))
    ensures IsDecimalInteger(s) && s[0] != '-' && s[0] != '+' ==> n == Sat64(DigitsValue(s))
  {
    if !IsDecimalInteger(s) then 0
    else if s[0] == '-' then Sat64(-(DigitsValue(s[1..]) as int))
    else if s[0] == '+' then Sat64(DigitsValue(s[1..]))
    else Sat64(DigitsValue(s))
  }

  /** The decimal rendering of any integer, a minus sign in front of a
      negative one (strconv.Itoa). */
  function SignedDecimal(n: int): (s: string)
    ensures IsDecimalInteger(s)
    ensures n < 0 <==> s[0] == '-'
  {
    if n < 0 then "-" + Decimal(-n) else Decimal(n)
  }

  /** strconv.ParseUint(s, 10, 32) succeeding: unsigned digits only (no
      sign) and a value that fits in 32 bits. */
  function ParseUint32(s: string): (r: Option<nat>)
    ensures r.Some? <==> s != [] && AllDigits(s) && DigitsValue(s) <= MaxUint32
    ensures r.Some? ==> r.value == DigitsValue(s)
  {
    if s != [] && AllDigits(s) && DigitsValue(s) <= MaxUint32 then Some(DigitsValue(s)) else None
  }

  /** The page and limit a listing runs with, and its offset. */
  datatype Paging = Paging(page: int, limit: int, offset: int)

  /** The offset a page starts at, in exact arithmetic: the value the
      handlers evidently mean by `(page - 1) * limit`. */
  function Offset(page: int, limit: int): (offset: int)
    requires page >= 1 && limit >= 1
    ensures offset >= 0
    ensures offset % limit == 0 && offset / limit == page - 1
  {
    DivModUnique((page - 1) * limit, limit, page - 1, 0);
    (page - 1) * limit
  }

  /** Go's int64 multiplication: the exact product wrapped into
      [MinInt64, MaxInt64]. */
  function Wrap64(x: int): (w: int)
    ensures MinInt64 <= w <= MaxInt64
    ensures (w - x) % 0x1_0000_0000_0000_0000 == 0
  {
    (x - MinInt64) % 0x1_0000_0000_0000_0000 + MinInt64
  }

  /** Wrapping leaves a value already in the int64 range unchanged. */
  lemma Wrap64InRange(x: int)
    requires MinInt64 <= x <= MaxInt64
    ensures Wrap64(x) == x
  {
    DivModUnique(x - MinInt64, 0x1_0000_0000_0000_0000, 0, x - MinInt64);
  }

  /** The offset exactly as the handlers compute it, in 64-bit arithmetic. */
  function OffsetAsWritten(page: int, limit: int): (offset: int)
    requires MinInt64 <= page <= MaxInt64
    ensures MinInt64 <= offset <= MaxInt64
  {
    Wrap64((page - 1) * limit)
  }

  /** Whenever the product fits in 64 bits, the written offset is the exact
      one: the two differ only past the overflow. */
  lemma OffsetAsWrittenWhenFits(page: int, limit: int)
    requires 1 <= page <= MaxInt64 && limit >= 1
    requires (page - 1) * limit <= MaxInt64
    ensures OffsetAsWritten(page, limit) == Offset(page, limit)
  {
    var x := (page - 1) * limit;
    assert 0 <= x;
    assert Offset(page, limit) == x;
    assert OffsetAsWritten(page, limit) == Wrap64(x);
    Wrap64InRange(x);
  }

  /** Atoi reads back the decimal rendering of any int64 value. */
  lemma AtoiOfDecimal(n: nat)
    requires n <= MaxInt64
    ensures Atoi(Decimal(n)) == n
  {
    DigitsValueOfDecimal(n);
    assert IsDigit(Decimal(n)[0]);
  }

  /** Atoi reads back any rendered integer, with or without an explicit
      plus sign, and a number beyond the int64 range reads as the nearest
      bound. */
  lemma AtoiOfSignedDecimal(n: int)
    ensures Atoi(SignedDecimal(n)) == Sat64(n)
    ensures n >= 0 ==> Atoi("+" + Decimal(n)) == Sat64(n)
  {
    var m: nat := if n < 0 then -n else n;
    DigitsValueOfDecimal(m);
    assert IsDigit(Decimal(m)[0]);
    assert ("-" + Decimal(m))[1..] == Decimal(m);
    assert ("+" + Decimal(m))[1..] == Decimal(m);
  }

  /** Page 10^18 with limit 10 is a query Atoi accepts, but the written
      offset wraps to a negative number, the query then carries no OFFSET and
      the first rows come back where the exact offset gives an empty page. */
  lemma OffsetOverflowCounterexample(s: seq<Attendance>, page: nat)
    requires 1 <= |s| <= MaxInt64
    requires page == 1000000000000000000
    ensures Atoi(Decimal(page)) == page
    ensures OffsetAsWritten(page, 10) < 0
    ensures Paginate(s, 10, OffsetAsWritten(page, 10)) == Paginate(s, 10, 0) != []
    ensures Paginate(s, 10, Offset(page, 10)) == []
  {
    AtoiOfDecimal(page);
    assert OffsetAsWritten(page, 10) == -8446744073709551626;
  }

  /** With the exact offset, page p shows the rows from position
      (p - 1) * limit on, and consecutive pages abut. */
  lemma PagesAreConsecutive<T>(s: seq<T>, page: int, limit: int)
    requires page >= 1 && limit >= 1
    ensures var r := Paginate(s, limit, Offset(page, limit));
      forall k :: 0 <= k < |r| ==> r[k] == s[(page - 1) * limit + k]
    ensures Offset(page + 1, limit) == Offset(page, limit) + limit
    ensures |s| <= Offset(page, limit) ==> Paginate(s, limit, Offset(page, limit)) == []
  {
  }

  /** The page count reported as total_page: (total + limit - 1) / limit. */
  function TotalPages(total: nat, limit: int): (pages: nat)
    requires limit >= 1
    ensures (pages - 1) * limit < total <= pages * limit || (total == 0 && pages == 0)
    ensures pages == 0 <==> total == 0
  {
    (total + limit - 1) / limit
  }

  /** The page counts the handlers document. */
  lemma TotalPagesExamples()
    ensures TotalPages(25, 10) == 3 && TotalPages(0, 10) == 0 && TotalPages(20, 10) == 2
  {
  }

  /** The page a listing shows: the "page" parameter (1 when absent) read by
      Atoi, raised to 1 when it is below 1. */
  function PageParam(q: Query): (page: int)
    ensures 1 <= page <= MaxInt64
    ensures Atoi(DefaultQuery(q, "page", "1")) >= 1 ==> page == Atoi(DefaultQuery(q, "page", "1"))
    ensures Atoi(DefaultQuery(q, "page", "1")) < 1 ==> page == 1
  {
    var page := Atoi(DefaultQuery(q, "page", "1"));
    if page < 1 then 1 else page
  }

  /** The page size a listing uses: the "limit" parameter (the listing's
      default text when absent) read by Atoi, and the listing's default
      value when it lies outside [1, 100]. */
  function LimitParam(q: Query, defaultText: string, defaultLimit: int): (limit: int)
    requires 1 <= defaultLimit <= 100
    ensures 1 <= limit <= 100
    ensures 1 <= Atoi(DefaultQuery(q, "limit", defaultText)) <= 100 ==>
      limit == Atoi(DefaultQuery(q, "limit", defaultText))
    ensures !(1 <= Atoi(DefaultQuery(q, "limit", defaultText)) <= 100) ==> limit == defaultLimit
  {
    var limit := Atoi(DefaultQuery(q, "limit", defaultText));
    if limit < 1 || limit > 100 then defaultLimit else limit
  }

  /** The clamping both listings apply, and the offset as they compute it in
      64-bit arithmetic (the exact offset whenever the product fits, by
      OffsetAsWrittenWhenFits). */
  method ClampPaging(q: Query, defaultText: string, defaultLimit: int) returns (p: Paging)
    requires 1 <= defaultLimit <= 100
    ensures p.page == PageParam(q) && p.limit == LimitParam(q, defaultText, defaultLimit)
    ensures p.offset == OffsetAsWritten(p.page, p.limit)
  {
    var page := Atoi(DefaultQuery(q, "page", "1"));
    var limit := Atoi(DefaultQuery(q, "limit", defaultText));
    if page < 1 {
      page := 1;
    }
    if limit < 1 || limit > 100 {
      limit := defaultLimit;
    }
    p := Paging(page, limit, OffsetAsWritten(page, limit));
  }

  /** A non-numeric or negative page parameter shows page 1. */
  lemma PageBelowOneIsFirst(q: Query, k: nat)
    requires "page" in q
    requires !IsDecimalInteger(q["page"]) || q["page"] == SignedDecimal(-(k as int))
    ensures PageParam(q) == 1
  {
    if IsDecimalInteger(q["page"]) {
      AtoiOfSignedDecimal(-(k as int));
    }
  }

  /** The filter bag of the admin listing: the ids only when they parse as
      32-bit unsigned integers, the strings only when non-empty. */
  function QueryFilters(q: Query): (filters: map<string, FilterValue>)
    ensures filters.Keys <= {"user_id", "location_id", "status", "date_from", "date_to"}
    ensures "user_id" in filters <==> ParseUint32(QueryValue(q, "user_id")).Some?
    ensures "user_id" in filters ==> filters["user_id"] == UintValue(ParseUint32(QueryValue(q, "user_id")).value)
    ensures "location_id" in filters <==> ParseUint32(QueryValue(q, "location_id")).Some?
    ensures "location_id" in filters ==> filters["location_id"] == UintValue(ParseUint32(QueryValue(q, "location_id")).value)
    ensures forall k :: k in {"status", "date_from", "date_to"} ==>
      (k in filters <==> QueryValue(q, k) != "") && (k in filters ==> filters[k] == StringValue(QueryValue(q, k)))
  {
    var userId := ParseUint32(QueryValue(q, "user_id"));
    var locationId := ParseUint32(QueryValue(q, "location_id"));
    var m0: map<string, FilterValue> := map[];
    var m1 := if userId.Some? then m0["user_id" := UintValue(userId.value)] else m0;
    var m2 := if locationId.Some? then m1["location_id" := UintValue(locationId.value)] else m1;
    var m3 := if QueryValue(q, "status") != "" then m2["status" := StringValue(QueryValue(q, "status"))] else m2;
    var m4 := if QueryValue(q, "date_from") != "" then m3["date_from" := StringValue(QueryValue(q, "date_from"))] else m3;
    if QueryValue(q, "date_to") != "" then m4["date_to" := StringValue(QueryValue(q, "date_to"))] else m4
  }

  /** The bag built one entry at a time, as the admin listing does. */
  method BuildFilters(q: Query) returns (filters: map<string, FilterValue>)
    ensures filters == QueryFilters(q)
  {
    filters := map[];
    var userId := ParseUint32(QueryValue(q, "user_id"));
    if userId.Some? {
      filters := filters["user_id" := UintValue(userId.value)];
    }
    var locationId := ParseUint32(QueryValue(q, "location_id"));
    if locationId.Some? {
      filters := filters["location_id" := UintValue(locationId.value)];
    }
    var status := QueryValue(q, "status");
    if status != "" {
      filters := filters["status" := StringValue(status)];
    }
    var dateFrom := QueryValue(q, "date_from");
    if dateFrom != "" {
      filters := filters["date_from" := StringValue(dateFrom)];
    }
    var dateTo := QueryValue(q, "date_to");
    if dateTo != "" {
      filters := filters["date_to" := StringValue(dateTo)];
    }
  }

  /** Each record of a page as its response, in the same order. */
  function Responses(page: seq<Loaded>): (rs: seq<AttendanceResponse>)
    ensures |rs| == |page|
    ensures forall i :: 0 <= i < |page| ==> rs[i] == ToResponse(page[i])
  {
    if page == [] then [] else [ToResponse(page[0])] + Responses(page[1..])
  }

  /** The page of records as responses, filled into an array in order. */
  method ToResponses(page: seq<Loaded>) returns (responses: seq<AttendanceResponse>)
    ensures |responses| == |page|
    ensures forall i :: 0 <= i < |page| ==> responses[i] == ToResponse(page[i])
    ensures responses == Responses(page)
  {
    var out := new AttendanceResponse[|page|];
    var i := 0;
    while i < |page|
      invariant 0 <= i <= |page|
      invariant forall j :: 0 <= j < i ==> out[j] == ToResponse(page[j])
    {
      out[i] := ToResponse(page[i]);
      i := i + 1;
    }
    responses := out[..];
  }

  /** The body of a successful listing. */
  datatype PageBody = PageBody(data: seq<AttendanceResponse>, total: nat, page: int, limit: int, totalPage: nat)

  /** A listing's body: the page's records as responses, the total and the
      page count at the given limit. */
  method PageOf(attendances: seq<Loaded>, total: nat, page: int, limit: int) returns (body: PageBody)
    requires limit >= 1
    ensures body.data == Responses(attendances) && |body.data| == |attendances|
    ensures body.total == total && body.page == page && body.limit == limit
    ensures body.totalPage == TotalPages(total, limit)
  {
    var responses := ToResponses(attendances);
    body := PageBody(responses, total, page, limit, TotalPages(total, limit));
  }

  /** GetAttendanceHistory: the caller's own records, limit 10 by default,
      at the offset the handler computes. */
  method GetAttendanceHistory(service: AttendanceService, userId: nat, q: Query)
    returns (body: PageBody)
    ensures body.page == PageParam(q) && body.limit == LimitParam(q, "10", 10)
    ensures var h := service.GetUserAttendanceHistory(userId, body.limit, OffsetAsWritten(body.page, body.limit));
      body.total == h.1 && body.data == Responses(h.0)
    ensures body.totalPage == TotalPages(body.total, body.limit)
    ensures |body.data| <= body.limit
  {
    var p := ClampPaging(q, "10", 10);
    var (attendances, total) := service.GetUserAttendanceHistory(userId, p.limit, p.offset);
    body := PageOf(attendances, total, p.page, p.limit);
  }

  /** GetAllAttendances: every user's records matching the query's filters,
      limit 20 by default; the listing fails exactly when the service does,
      with the service's error. */
  method GetAllAttendances(service: AttendanceService, q: Query)
    returns (r: Result<PageBody>)
    ensures var res := service.GetAllAttendances(QueryFilters(q), LimitParam(q, "20", 20),
                                                 OffsetAsWritten(PageParam(q), LimitParam(q, "20", 20)));
      && (r.Err? <==> res.Err?)
      && (r.Err? ==> r.error == res.error && r.error == QueryFailed)
      && (r.Ok? ==>
            && r.value.page == PageParam(q) && r.value.limit == LimitParam(q, "20", 20)
            && r.value.total == res.value.1
            && r.value.data == Responses(res.value.0))
    ensures r.Ok? ==> |r.value.data| <= r.value.limit
    ensures r.Ok? ==> r.value.totalPage == TotalPages(r.value.total, r.value.limit)
  {
    var p := ClampPaging(q, "20", 20);
    var filters := BuildFilters(q);
    var result := service.GetAllAttendances(filters, p.limit, p.offset);
    ghost var res := service.GetAllAttendances(QueryFilters(q), LimitParam(q, "20", 20),
                                               OffsetAsWritten(PageParam(q), LimitParam(q, "20", 20)));
    assert result == res;
    if result.Err? {
      return Err(result.error);
    }
    var body := PageOf(result.value.0, result.value.1, p.page, p.limit);
    r := Ok(body);
  }
}
