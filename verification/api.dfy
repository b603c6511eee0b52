/** The validation part of the HTTP client: the period check, the query
    string builder, and the decision each request function takes before any
    request is sent. Sending itself is not modelled: a function returns the
    request it would issue, or the error it would throw instead. */
module Api {
  import opened Wrappers
  import Decimal

  /** The origin prefixed to every path (empty: same origin). */
  const BaseUrl := ""

  /** Why a call was refused before any request. */
  datatype Reason = BadPeriod | NegativeGoal

  /** The error thrown, with its `status` property. */
  datatype ClientError = ClientError(status: int, reason: Reason)

  /** The body of `POST /api/goals`; `None` is a goal that is not a number. */
  datatype GoalBody = GoalBody(userId: int, periodYm: string, savingGoalWon: Option<real>)

  datatype Request = Get(url: string) | Post(url: string, body: GoalBody)

  // ---------------------------------------------------------------------
  // assertPeriod: the regular expression ^\d{4}-\d{2}$ (no flags)

  /** One position of an anchored, fixed-length pattern. */
  datatype CharClass = Digit | Literal(c: char)

  /** `^\d{4}-\d{2}$`; `\d` is an ASCII digit. */
  const PeriodPattern: seq<CharClass> :=
    [Digit, Digit, Digit, Digit, Literal('-'), Digit, Digit]

  predicate ClassMatches(k: CharClass, c: char)
  {
    match k
    case Digit => Decimal.IsDigit(c)
    case Literal(x) => c == x
  }

  /** The pattern matches the whole string: `^` and `$` without the
      multiline flag anchor at the very start and end, so nothing, not even a
      newline, may follow. */
  predicate FullMatch(pattern: seq<CharClass>, s: string)
  {
    if pattern == [] then s == []
    else s != [] && ClassMatches(pattern[0], s[0]) && FullMatch(pattern[1..], s[1..])
  }

  /** Matching position by position. */
  lemma {:induction false} FullMatchPositions(pattern: seq<CharClass>, s: string)
    ensures FullMatch(pattern, s) <==>
      |s| == |pattern| && forall i :: 0 <= i < |s| ==> ClassMatches(pattern[i], s[i])
  {
    if pattern != [] && s != [] {
      FullMatchPositions(pattern[1..], s[1..]);
      if |s| == |pattern| && forall i :: 0 <= i < |s| ==> ClassMatches(pattern[i], s[i]) {
        forall i | 0 <= i < |s| - 1
          ensures ClassMatches(pattern[1..][i], s[1..][i])
        {
          assert ClassMatches(pattern[i + 1], s[i + 1]);
        }
      }
      if FullMatch(pattern, s) {
        forall i | 0 <= i < |s|
          ensures ClassMatches(pattern[i], s[i])
        {
          if i > 0 {
            assert ClassMatches(pattern[1..][i - 1], s[1..][i - 1]);
          }
        }
      }
    }
  }

  /** A period in `YYYY-MM` form: four ASCII digits, a hyphen, two ASCII
      digits, and nothing else. Neither the year nor the month is range
      checked. */
  predicate IsPeriod(s: string)
    ensures IsPeriod(s) <==> FullMatch(PeriodPattern, s)
  {
    FullMatchPositions(PeriodPattern, s);
    (&& |s| == 7
     && (forall i :: 0 <= i < 4 ==> Decimal.IsDigit(s[i]))
     && s[4] == '-'
     && Decimal.IsDigit(s[5]) && Decimal.IsDigit(s[6]))
  }

  /** `assertPeriod`: passes, or throws an error with status 400. */
  function AssertPeriod(periodYm: string): (r: Option<ClientError>)
    ensures r.None? <==> IsPeriod(periodYm)
    ensures r.Some? ==> r.value == ClientError(400, BadPeriod)
  {
    if FullMatch(PeriodPattern, periodYm) then None else Some(ClientError(400, BadPeriod))
  }

  /** The check is on form only: an impossible month or year still passes. */
  lemma AssertPeriodAccepts()
    ensures AssertPeriod("2025-08").None?
    ensures AssertPeriod("2025-13").None?
    ensures AssertPeriod("0000-00").None?
  {
    assert IsPeriod("2025-08");
    assert IsPeriod("2025-13");
    assert IsPeriod("0000-00");
  }

  /** A trailing newline, a missing digit, another separator or an empty
      string fail. */
  lemma AssertPeriodRejects()
    ensures AssertPeriod("2025-08\n").Some?
    ensures AssertPeriod("2025-8").Some?
    ensures AssertPeriod("2025/08").Some?
    ensures AssertPeriod("").Some?
  {
    assert |"2025-08\n"| == 8 && |"2025-8"| == 6;
    assert "2025/08"[4] == '/';
  }

  // ---------------------------------------------------------------------
  // qs: the query string builder

  /** A parameter; `None` is a value that is `undefined`. */
  type Param = (string, Option<string>)

  /** The parameters that are kept: those whose value is not `undefined`, in
      their original order. */
  function Defined(params: seq<Param>): (kept: seq<(string, string)>)
    ensures |kept| <= |params|
    ensures forall k, v :: (k, v) in kept <==> (k, Some(v)) in params
  {
    if params == [] then []
    else
      var rest := Defined(params[1..]);
      assert forall p :: p in params <==> p == params[0] || p in params[1..];
      match params[0].1
      case None => rest
      case Some(v) => [(params[0].0, v)] + rest
  }

  /** Keeping parameters commutes with concatenation, so their relative order
      is preserved. */
  lemma {:induction false} DefinedAppend(a: seq<Param>, b: seq<Param>)
    ensures Defined(a + b) == Defined(a) + Defined(b)
  {
    if a != [] {
      assert (a + b)[1..] == a[1..] + b;
      DefinedAppend(a[1..], b);
    } else {
      assert a + b == b;
    }
  }

  /** `URLSearchParams.toString()`: `name=value` pairs joined by `&`, each
      part passed through the form encoding `encode`. */
  function Serialize(pairs: seq<(string, string)>, encode: string -> string): (r: string)
    ensures pairs == [] <==> r == []
  {
    if pairs == [] then []
    else
      var first := encode(pairs[0].0) + "=" + encode(pairs[0].1);
      if |pairs| == 1 then first else first + "&" + Serialize(pairs[1..], encode)
  }

  /** `qs`: "" when no parameter is kept, else "?" and the serialized pairs. */
  function Qs(params: seq<Param>, encode: string -> string): (r: string)
    ensures r == "" <==> Defined(params) == []
    ensures r != "" ==> r[0] == '?' && r[1..] == Serialize(Defined(params), encode)
  {
    var query := Serialize(Defined(params), encode);
    if query != [] then "?" + query else ""
  }

  // ---------------------------------------------------------------------
  // The request functions, up to the request they issue

  /** The query a valid period produces: exactly one pair. */
  lemma PeriodQuery(periodYm: string, encode: string -> string)
    ensures Qs([("periodYm", Some(periodYm))], encode)
      == "?" + encode("periodYm") + "=" + encode(periodYm)
  {
    assert Defined([("periodYm", Some(periodYm))]) == [("periodYm", periodYm)];
  }

  /** A GET of `path` with the period as its only parameter, issued only
      when the period is valid (`getJSON(path, { periodYm })` after
      `assertPeriod`). */
  function FetchByPeriod(path: string, periodYm: string, encode: string -> string): (r: Result<Request, ClientError>)
    ensures r.Failure? <==> !IsPeriod(periodYm)
    ensures r.Failure? ==> r.error == ClientError(400, BadPeriod)
    ensures r.Success? ==> r.value == Get(path + "?" + encode("periodYm") + "=" + encode(periodYm))
  {
    match AssertPeriod(periodYm)
    case Some(e) => Failure(e)
    case None =>
      var url := BaseUrl + path + Qs([("periodYm", Some(periodYm))], encode);
      PeriodQuery(periodYm, encode);
      assert url == path + "?" + encode("periodYm") + "=" + encode(periodYm);
      Success(Get(url))
  }

  /** `fetchDonut`: no request unless the period is valid. */
  function FetchDonut(periodYm: string, encode: string -> string): (r: Result<Request, ClientError>)
    ensures r.Failure? <==> !IsPeriod(periodYm)
    ensures r.Failure? ==> r.error == ClientError(400, BadPeriod)
    ensures r.Success? ==> r.value == Get("/api/donut?" + encode("periodYm") + "=" + encode(periodYm))
  {
    assert "/api/donut" + "?" == "/api/donut?";
    FetchByPeriod("/api/donut", periodYm, encode)
  }

  /** `fetchMonthlyBars`: no request unless the period is valid. */
  function FetchMonthlyBars(periodYm: string, encode: string -> string): (r: Result<Request, ClientError>)
    ensures r.Failure? <==> !IsPeriod(periodYm)
    ensures r.Failure? ==> r.error == ClientError(400, BadPeriod)
    ensures r.Success? ==> r.value == Get("/api/monthly-bars?" + encode("periodYm") + "=" + encode(periodYm))
  {
    assert "/api/monthly-bars" + "?" == "/api/monthly-bars?";
    FetchByPeriod("/api/monthly-bars", periodYm, encode)
  }

  /** `fetchGoal`: no request unless the period is valid. */
  function FetchGoal(periodYm: string, encode: string -> string): (r: Result<Request, ClientError>)
    ensures r.Failure? <==> !IsPeriod(periodYm)
    ensures r.Failure? ==> r.error == ClientError(400, BadPeriod)
    ensures r.Success? ==> r.value == Get("/api/goals?" + encode("periodYm") + "=" + encode(periodYm))
  {
    assert "/api/goals" + "?" == "/api/goals?";
    FetchByPeriod("/api/goals", periodYm, encode)
  }

  /** `saveGoal`: the period is checked first, then the goal; only when both
      pass is the POST issued. A goal that is not a number compares false
      with `< 0` and so passes. */
  function SaveGoal(userId: int, periodYm: string, savingGoalWon: Option<real>): (r: Result<Request, ClientError>)
    ensures r.Success? <==> IsPeriod(periodYm) && !(savingGoalWon.Some? && savingGoalWon.value < 0.0)
    ensures !IsPeriod(periodYm) ==> r == Failure(ClientError(400, BadPeriod))
    ensures IsPeriod(periodYm) && savingGoalWon.Some? && savingGoalWon.value < 0.0 ==>
      r == Failure(ClientError(400, NegativeGoal))
    ensures r.Success? ==> r.value == Post("/api/goals", GoalBody(userId, periodYm, savingGoalWon))
  {
    match AssertPeriod(periodYm)
    case Some(e) => Failure(e)
    case None =>
      if savingGoalWon.Some? && savingGoalWon.value < 0.0 then Failure(ClientError(400, NegativeGoal))
      else
        assert BaseUrl + "/api/goals" == "/api/goals";
        Success(Post(BaseUrl + "/api/goals", GoalBody(userId, periodYm, savingGoalWon)))
  }

  /** A goal of zero is accepted; a month of 13 passes the form check; a bad
      period is reported before a negative goal. */
  lemma SaveGoalExamples(userId: int)
    ensures SaveGoal(userId, "2025-08", Some(0.0)).Success?
    ensures SaveGoal(userId, "2025-08", Some(-1.0)) == Failure(ClientError(400, NegativeGoal))
    ensures SaveGoal(userId, "2025-13", Some(10000.0)).Success?
    ensures SaveGoal(userId, "2025-8", Some(-1.0)) == Failure(ClientError(400, BadPeriod))
  {
    assert IsPeriod("2025-08") && IsPeriod("2025-13") && !IsPeriod("2025-8");
  }
}
