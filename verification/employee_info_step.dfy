/** The second wizard step,
    `src/components/employee/steps/EmployeeInfoStep.jsx`: the employee's
    professional details. Only the employee number is validated; the two
    calendars restrict which dates can be picked, and the request sends
    both dates as `yyyy-MM-dd`. The current day and whether the browser's
    time zone lies east of UTC are inputs. */
module EmployeeInfoForm {
  import opened Wrappers
  import opened Json
  import opened Http
  import opened FormRules
  import opened Constants
  import opened Wizard
  import Text

  // ---------------------------------------------------------------------
  // Calendar days

  /** A calendar day in the local time zone. */
  datatype Date = Date(year: nat, month: nat, day: nat)

  predicate IsLeapYear(y: nat)
  {
    y % 4 == 0 && (y % 100 != 0 || y % 400 == 0)
  }

  function DaysInMonth(y: nat, m: nat): nat
  {
    if m == 2 then (if IsLeapYear(y) then 29 else 28)
    else if m == 4 || m == 6 || m == 9 || m == 11 then 30
    else 31
  }

  /** A day a JavaScript `Date` can denote in the common era. */
  predicate ValidDate(d: Date)
  {
    1 <= d.year && 1 <= d.month <= 12 && 1 <= d.day <= DaysInMonth(d.year, d.month)
  }

  /** A day a calendar can produce. */
  type Day = d: Date | ValidDate(d) witness Date(1970, 1, 1)

  /** `a` is an earlier day than `b`. */
  predicate Before(a: Date, b: Date)
  {
    a.year < b.year ||
    (a.year == b.year && (a.month < b.month || (a.month == b.month && a.day < b.day)))
  }

  /** A number for each day that grows with the day (not one per day: the
      numbering leaves gaps between months and years), an independent
      measure of the order of days. */
  function DayNumber(d: Date): nat
  {
    d.year * 512 + d.month * 32 + d.day
  }

  /** `Before` is the order of the day numbers of valid days, so it is a
      strict total order on them. */
  lemma BeforeIsDayOrder(a: Date, b: Date)
    requires ValidDate(a) && ValidDate(b)
    ensures Before(a, b) <==> DayNumber(a) < DayNumber(b)
    ensures a != b ==> Before(a, b) || Before(b, a)
  {
    if a.year != b.year {
      if a.year < b.year {
        assert DayNumber(a) <= a.year * 512 + 12 * 32 + 31 < (a.year + 1) * 512 <= DayNumber(b);
      } else {
        assert DayNumber(b) <= b.year * 512 + 12 * 32 + 31 < (b.year + 1) * 512 <= DayNumber(a);
      }
    }
  }

  /** `new Date('1940-01-01')`, which ECMAScript reads as midnight UTC. */
  const BirthLowerBound: Date := Date(1940, 1, 1)

  /** The birth calendar's `disabled(date)`: a day after today, or a day
      whose local midnight falls before midnight UTC on 1940-01-01. That
      is every day before 1940-01-01, and 1940-01-01 itself when the local
      zone is east of UTC. */
  predicate BirthDateDisabled(d: Date, today: Date, eastOfUtc: bool)
  {
    Before(today, d) || Before(d, BirthLowerBound) || (d == BirthLowerBound && eastOfUtc)
  }

  /** The hire calendar's `disabled(date)`: a day after today. */
  predicate HireDateDisabled(d: Date, today: Date)
  {
    Before(today, d)
  }

  /** A birth date can be picked only between 1940-01-01 and today, and
      every day strictly after 1940-01-01 up to today can be picked. */
  lemma BirthDateWindow(d: Date, today: Date, eastOfUtc: bool)
    requires ValidDate(d) && ValidDate(today)
    ensures !BirthDateDisabled(d, today, eastOfUtc) ==>
      DayNumber(BirthLowerBound) <= DayNumber(d) <= DayNumber(today)
    ensures DayNumber(BirthLowerBound) < DayNumber(d) <= DayNumber(today) ==>
      !BirthDateDisabled(d, today, eastOfUtc)
  {
    BeforeIsDayOrder(d, today);
    BeforeIsDayOrder(today, d);
    BeforeIsDayOrder(d, BirthLowerBound);
  }

  /** The hire date's default, today, can be kept, and no later day can be
      picked. */
  lemma HireDateWindow(d: Date, today: Date)
    requires ValidDate(d) && ValidDate(today)
    ensures !HireDateDisabled(today, today)
    ensures !HireDateDisabled(d, today) <==> DayNumber(d) <= DayNumber(today)
  {
    BeforeIsDayOrder(today, d);
  }

  // ---------------------------------------------------------------------
  // format(date, 'yyyy-MM-dd')

  /** `format(date, 'yyyy-MM-dd')`: the year padded to four digits, the
      month and the day to two. */
  function FormatDate(d: Date): (s: string)
    ensures |s| >= 10
    ensures d.month < 100 && d.day < 100 ==> s[|s| - 6] == '-' && s[|s| - 3] == '-'
  {
    var year := Text.PadStart(Text.Decimal(d.year), 4, '0');
    var month := Text.PadStart(Text.Decimal(d.month), 2, '0');
    var day := Text.PadStart(Text.Decimal(d.day), 2, '0');
    year + "-" + month + "-" + day
  }

  /** Reads a `yyyy-MM-dd` text back into a day. */
  function ParseDate(s: string): Option<Date>
  {
    if |s| < 10 || s[|s| - 6] != '-' || s[|s| - 3] != '-' then None
    else
      var y, m, d := s[..|s| - 6], s[|s| - 5..|s| - 3], s[|s| - 2..];
      if Text.IsNumeral(y) && Text.IsNumeral(m) && Text.IsNumeral(d)
      then Some(Date(Text.DecimalValue(y), Text.DecimalValue(m), Text.DecimalValue(d)))
      else None
  }

  /** A number below 100 has at most two decimal digits. */
  lemma TwoDigitsAtMost(n: nat)
    requires n < 100
    ensures |Text.Decimal(n)| <= 2
  {
    if n >= 10 {
      assert |Text.Decimal(n / 10)| == 1;
    }
  }

  /** The three fields of a `yyyy-MM-dd` text sit at fixed distances from
      its end. */
  lemma DateFieldsAt(y: string, m: string, dd: string)
    requires |y| >= 4 && |m| == 2 && |dd| == 2
    ensures var s := y + "-" + m + "-" + dd;
      |s| == |y| + 6 && s[|s| - 6] == '-' && s[|s| - 3] == '-' &&
      s[..|s| - 6] == y && s[|s| - 5..|s| - 3] == m && s[|s| - 2..] == dd
  {
  }

  /** The formatted date loses nothing: reading it back gives the day. */
  lemma FormatDateRoundTrip(d: Date)
    requires ValidDate(d)
    ensures ParseDate(FormatDate(d)) == Some(d)
  {
    var y := Text.PadStart(Text.Decimal(d.year), 4, '0');
    var m := Text.PadStart(Text.Decimal(d.month), 2, '0');
    var dd := Text.PadStart(Text.Decimal(d.day), 2, '0');
    TwoDigitsAtMost(d.month);
    TwoDigitsAtMost(d.day);
    Text.ZeroPaddedDecimal(d.year, 4);
    Text.ZeroPaddedDecimal(d.month, 2);
    Text.ZeroPaddedDecimal(d.day, 2);
    DateFieldsAt(y, m, dd);
    var s := FormatDate(d);
    assert s == y + "-" + m + "-" + dd;
    assert Text.IsNumeral(y) && Text.IsNumeral(m) && Text.IsNumeral(dd);
  }

  /** Up to the year 9999 the formatted date is exactly ten characters,
      with its dashes at positions 4 and 7. */
  lemma FormatDateLength(d: Date)
    requires ValidDate(d) && d.year < 10000
    ensures |FormatDate(d)| == 10
    ensures FormatDate(d)[4] == '-' && FormatDate(d)[7] == '-'
  {
    DecimalLength(d.year);
    TwoDigitsAtMost(d.month);
    TwoDigitsAtMost(d.day);
  }

  /** A number below 10000 has at most four decimal digits. */
  lemma DecimalLength(n: nat)
    requires n < 10000
    ensures |Text.Decimal(n)| <= 4
  {
    if n >= 10 {
      assert n / 10 < 1000;
      if n / 10 >= 10 {
        assert n / 100 < 100;
        TwoDigitsAtMost(n / 100);
        assert Text.Decimal(n / 10) == Text.Decimal(n / 100) + [Text.DecimalDigit(n / 10 % 10)];
      }
    }
  }

  // ---------------------------------------------------------------------
  // The form

  /** The form's values. Department, position and gender are set by the
      selects through `setValue`; the two dates are absent until picked. */
  datatype EmployeeForm = EmployeeForm(
    employeeId: string, department: string, position: string, gender: string,
    dateOfBirth: Option<Day>, dateJoined: Option<Day>)

  /** The form's `defaultValues`: no birth date, hired today. */
  function DefaultForm(today: Day): EmployeeForm
  {
    EmployeeForm("", "", "", "", None, Some(today))
  }

  const EmployeeIdRequiredMessage: string := "ID employé requis"
  const EmployeeIdFormatMessage: string := "Format invalide (majuscules, chiffres et tirets uniquement)"
  const FallbackMessage: string := "Une erreur est survenue"
  const DepartmentsFailedMessage: string := "Erreur lors du chargement des départements"

  const EmployeeIdRules: Rules := Rules(Some(EmployeeIdRequiredMessage), None, Some(PatternRule(EmployeeIdPattern, EmployeeIdFormatMessage)), None)

  /** The messages `handleSubmit` reports, by field name. Only
      `employee_id` is registered with rules. */
  function FormErrors(f: EmployeeForm): map<string, string>
  {
    WithError(map[], "employee_id", FieldError(EmployeeIdRules, f.employeeId))
  }

  /** The form is accepted exactly when the employee number is non-empty
      and uses only `[A-Z0-9-]`; the selects and the dates never block it. */
  lemma FormValidIff(f: EmployeeForm)
    ensures FormErrors(f) == map[] <==> f.employeeId != "" && AllEmployeeIdChars(f.employeeId)
  {
    if FieldError(EmployeeIdRules, f.employeeId).Some? {
      assert "employee_id" in FormErrors(f);
    }
  }

  /** The form's values as the object `handleSubmit` passes on. The two date
      keys are left out: the request overwrites both. */
  function FormFields(f: EmployeeForm): Object
  {
    map["employee_id" := JStr(f.employeeId), "department" := JStr(f.department),
        "position" := JStr(f.position), "gender" := JStr(f.gender)]
  }

  /** The keys the request adds to the form's values, the dates already formatted. */
  function RequestExtras(userId: Option<Json>, birth: string, joined: string): Object
  {
    (if userId.Some? then map["user_id" := userId.value] else map[]) +
    map["date_of_birth" := JStr(birth), "date_joined" := JStr(joined)]
  }

  /** Evaluates the request object literal: the form's values, then
      `user_id` read from `data.user`, then both dates formatted. Reading a
      property of a missing or `null` user throws a `TypeError`, and
      formatting a missing date throws a `RangeError`. An absent `user_id`
      is `undefined` and is dropped when the body is serialised. */
  function BuildRequest(f: EmployeeForm, data: Object): (r: Result<Object, string>)
    ensures r.Ok? <==> "user" in data && !data["user"].JNull? && f.dateOfBirth.Some? && f.dateJoined.Some?
  {
    match NestedProperty(data, "user", "user_id")
    case Err(e) => Err(e)
    case Ok(userId) =>
      if f.dateOfBirth.None? || f.dateJoined.None? then Err("Invalid time value")
      else Ok(Spread(FormFields(f), RequestExtras(userId, FormatDate(f.dateOfBirth.value), FormatDate(f.dateJoined.value))))
  }

  /** The request carries every form value unchanged. */
  lemma RequestKeepsForm(f: EmployeeForm, data: Object)
    requires BuildRequest(f, data).Ok?
    ensures forall k :: k in FormFields(f) ==> k in BuildRequest(f, data).value && BuildRequest(f, data).value[k] == FormFields(f)[k]
  {
    var userId := NestedProperty(data, "user", "user_id").value;
    var extra := RequestExtras(userId, FormatDate(f.dateOfBirth.value), FormatDate(f.dateJoined.value));
    assert BuildRequest(f, data).value == Spread(FormFields(f), extra);
    ExtraKeysApart(f, userId, FormatDate(f.dateOfBirth.value), FormatDate(f.dateJoined.value));
  }

  /** The keys the request adds never clash with the form's: they differ
      in their first two letters. */
  lemma ExtraKeysApart(f: EmployeeForm, userId: Option<Json>, birth: string, joined: string)
    ensures FormFields(f).Keys !! RequestExtras(userId, birth, joined).Keys
  {
    assert FormFields(f).Keys == {"employee_id", "department", "position", "gender"};
    assert RequestExtras(userId, birth, joined).Keys <= {"user_id", "date_of_birth", "date_joined"};
    assert "department"[1] == 'e' && "date_of_birth"[1] == 'a' && "date_joined"[1] == 'a';
  }

  /** The request has a `user_id` exactly when the user record has one. */
  lemma RequestUserId(f: EmployeeForm, data: Object)
    requires BuildRequest(f, data).Ok?
    ensures "user_id" in BuildRequest(f, data).value <==> data["user"].JObj? && "user_id" in data["user"].fields
  {
    assert "user_id" !in FormFields(f);
  }

  /** Both dates are sent as text that reads back to the picked days. */
  lemma RequestDates(f: EmployeeForm, data: Object)
    requires BuildRequest(f, data).Ok?
    ensures var body := BuildRequest(f, data).value;
      "date_of_birth" in body && body["date_of_birth"] == JStr(FormatDate(f.dateOfBirth.value)) &&
      "date_joined" in body && body["date_joined"] == JStr(FormatDate(f.dateJoined.value)) &&
      ParseDate(FormatDate(f.dateOfBirth.value)).Some? &&
      ParseDate(FormatDate(f.dateOfBirth.value)).value == f.dateOfBirth.value &&
      ParseDate(FormatDate(f.dateJoined.value)).Some? &&
      ParseDate(FormatDate(f.dateJoined.value)).value == f.dateJoined.value
  {
    FormatDateRoundTrip(f.dateOfBirth.value);
    FormatDateRoundTrip(f.dateJoined.value);
  }

  /** The step's state; `requests` and `callbacks` record, in order, the
      requests it issued and the calls it made on the wizard. `departments`
      is `None` while it still holds its initial empty list, and the
      fetched response body afterwards. */
  class EmployeeInfoStep {
    var departments: Option<Json>
    var loading: bool
    var error: string
    var fieldErrors: map<string, string>
    var requests: seq<Request>
    var callbacks: seq<Callback>

    constructor()
      ensures departments == None && !loading && error == "" && fieldErrors == map[]
      ensures requests == [] && callbacks == []
    {
      departments := None;
      loading := false;
      error := "";
      fieldErrors := map[];
      requests := [];
      callbacks := [];
    }

    /** `fetchDepartments`, run once on mount: the list replaces the
        departments, a failure only shows a message. */
    method FetchDepartments(reply: Reply)
      modifies this
      ensures requests == old(requests) + [Get(ApiBaseUrl + DepartmentsPath)]
      ensures reply.Resolved? ==> departments == Some(reply.data) && error == old(error)
      ensures reply.Rejected? ==> departments == old(departments) && error == DepartmentsFailedMessage
      ensures loading == old(loading) && fieldErrors == old(fieldErrors) && callbacks == old(callbacks)
    {
      requests := requests + [Get(ApiBaseUrl + DepartmentsPath)];
      match reply {
        case Resolved(list) => departments := Some(list);
        case Rejected(_, _) => error := DepartmentsFailedMessage;
      }
    }

    /** Submitting the form with the wizard's `data`. An invalid form only
        reports its field errors. Otherwise the request is assembled; if
        that throws (no user, or a date not picked) nothing is posted and
        the fallback message is shown. A posted request that succeeds hands
        the employee to the wizard and moves it to the card step. */
    method Submit(form: EmployeeForm, data: Object, reply: Reply)
      modifies this
      ensures FormErrors(form) != map[] ==>
        fieldErrors == FormErrors(form) && requests == old(requests) && callbacks == old(callbacks) &&
        loading == old(loading) && error == old(error)
      ensures FormErrors(form) == map[] ==> fieldErrors == map[] && !loading
      ensures FormErrors(form) == map[] && BuildRequest(form, data).Err? ==>
        requests == old(requests) && callbacks == old(callbacks) && error == FallbackMessage
      ensures FormErrors(form) == map[] && BuildRequest(form, data).Ok? ==>
        requests == old(requests) + [Post(ApiBaseUrl + CreateBasicInfoPath, JObj(BuildRequest(form, data).value))]
      ensures FormErrors(form) == map[] && BuildRequest(form, data).Ok? && reply.Resolved? ==>
        error == "" && callbacks == old(callbacks) + [OnUpdate(map["employee" := reply.data]), OnComplete(NfcSetup)]
      ensures FormErrors(form) == map[] && BuildRequest(form, data).Ok? && reply.Rejected? ==>
        error == ErrorText(reply.body, "message", FallbackMessage) && callbacks == old(callbacks)
      ensures departments == old(departments)
    {
      var errors := FormErrors(form);
      fieldErrors := errors;
      if errors != map[] {
        return;
      }
      loading := true;
      error := "";
      var request := BuildRequest(form, data);
      if request.Err? {
        // A TypeError or RangeError carries no server response.
        error := ErrorText(None, "message", FallbackMessage);
        loading := false;
        return;
      }
      SendBasicInfo(request.value, reply);
    }

    /** Posts the employee's basic information and applies the server's
        reply: success hands the employee to the wizard and moves it to the
        card step, failure shows the server's message or the fallback. */
    method SendBasicInfo(basicInfo: Object, reply: Reply)
      modifies this
      ensures requests == old(requests) + [Post(ApiBaseUrl + CreateBasicInfoPath, JObj(basicInfo))]
      ensures reply.Resolved? ==>
        error == old(error) && callbacks == old(callbacks) + [OnUpdate(map["employee" := reply.data]), OnComplete(NfcSetup)]
      ensures reply.Rejected? ==>
        error == ErrorText(reply.body, "message", FallbackMessage) && callbacks == old(callbacks)
      ensures !loading && fieldErrors == old(fieldErrors) && departments == old(departments)
    {
      requests := requests + [Post(ApiBaseUrl + CreateBasicInfoPath, JObj(basicInfo))];
      match reply {
        case Resolved(employee) =>
          callbacks := callbacks + [OnUpdate(map["employee" := employee])];
          callbacks := callbacks + [OnComplete(NfcSetup)];
        case Rejected(_, body) =>
          error := ErrorText(body, "message", FallbackMessage);
      }
      loading := false;
    }

    /** The back button: returns the wizard to the account step, sending
        nothing. */
    method Back()
      modifies this
      ensures callbacks == old(callbacks) + [OnComplete(UserInfo)]
      ensures requests == old(requests) && error == old(error) && loading == old(loading)
      ensures fieldErrors == old(fieldErrors) && departments == old(departments)
    {
      callbacks := callbacks + [OnComplete(UserInfo)];
    }
  }

  /** Submitting the defaults never posts: validation stops at the empty
      employee number, and even past it no birth date has been picked, so
      formatting it would throw before the request is sent. */
  lemma DefaultsNeverPost(today: Day, data: Object)
    ensures FormErrors(DefaultForm(today)) == map["employee_id" := EmployeeIdRequiredMessage]
    ensures BuildRequest(DefaultForm(today), data).Err?
  {
    assert FieldError(EmployeeIdRules, "") == Some(EmployeeIdRequiredMessage);
  }
}
