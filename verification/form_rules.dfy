/** The part of `react-hook-form` the enrollment forms rely on: a field's
    rules (`required`, `minLength`, `pattern`, `validate`) are checked in
    that order and the field reports the message of the first one that
    fails. `minLength` and `pattern` are skipped for an empty value;
    `validate` is not. The three regular expressions the forms use are
    modelled as character-class predicates. */
module FormRules {
  import opened Wrappers

  /** `minLength: { value, message }`. */
  datatype Limit = Limit(value: nat, message: string)

  /** The regular expressions the forms use. */
  datatype Pattern =
    | UsernamePattern    // /^[a-zA-Z0-9._-]+$/
    | EmailPattern       // /^[A-Z0-9._%+-]+@[A-Z0-9.-]+\.[A-Z]{2,}$/i
    | EmployeeIdPattern  // /^[A-Z0-9-]+$/

  /** `pattern: { value, message }`. */
  datatype PatternRule = PatternRule(regex: Pattern, message: string)

  /** `validate: v => v === other || message`, the only validator the forms use. */
  datatype SameAs = SameAs(other: string, message: string)

  /** The rules registered for one field. */
  datatype Rules = Rules(required: Option<string>, minLength: Option<Limit>, pattern: Option<PatternRule>, validate: Option<SameAs>)

  /** A field registered without rules. */
  const NoRules: Rules := Rules(None, None, None, None)

  predicate IsDigit(c: char) { '0' <= c <= '9' }
  predicate IsUpper(c: char) { 'A' <= c <= 'Z' }
  predicate IsLower(c: char) { 'a' <= c <= 'z' }

  /** `[a-zA-Z0-9._-]` */
  predicate IsUsernameChar(c: char)
  {
    IsUpper(c) || IsLower(c) || IsDigit(c) || c == '.' || c == '_' || c == '-'
  }

  /** `[A-Z0-9-]` */
  predicate IsEmployeeIdChar(c: char)
  {
    IsUpper(c) || IsDigit(c) || c == '-'
  }

  /** `[A-Z0-9._%+-]` under the `i` flag. Case-insensitive matching only
      adds `a-z`: no other character upper-cases into `A-Z` under the rules
      ECMAScript uses for non-Unicode patterns. */
  predicate IsEmailLocalChar(c: char)
  {
    IsUpper(c) || IsLower(c) || IsDigit(c) || c == '.' || c == '_' || c == '%' || c == '+' || c == '-'
  }

  /** `[A-Z0-9.-]` under the `i` flag. */
  predicate IsEmailDomainChar(c: char)
  {
    IsUpper(c) || IsLower(c) || IsDigit(c) || c == '.' || c == '-'
  }

  /** `[A-Z]` under the `i` flag. */
  predicate IsLetter(c: char)
  {
    IsUpper(c) || IsLower(c)
  }

  /** Every character of `s` is a username character. */
  predicate AllUsernameChars(s: string)
  {
    forall i :: 0 <= i < |s| ==> IsUsernameChar(s[i])
  }

  predicate AllEmployeeIdChars(s: string)
  {
    forall i :: 0 <= i < |s| ==> IsEmployeeIdChar(s[i])
  }

  predicate AllLocalChars(s: string)
  {
    forall i :: 0 <= i < |s| ==> IsEmailLocalChar(s[i])
  }

  predicate AllDomainChars(s: string)
  {
    forall i :: 0 <= i < |s| ==> IsEmailDomainChar(s[i])
  }

  predicate AllLetters(s: string)
  {
    forall i :: 0 <= i < |s| ==> IsLetter(s[i])
  }

  /** What the email expression means: some `@` at position `a` and some
      `.` at position `d` split the text into a non-empty local part, a
      non-empty domain and a top-level domain of at least two letters. */
  predicate EmailRegexMatches(s: string)
  {
    exists a, d :: 1 <= a && a + 2 <= d && d + 3 <= |s| && EmailSplitAt(s, a, d)
  }

  /** The split the email expression asks for, at `@` position `a` and `.`
      position `d`. */
  predicate EmailSplitAt(s: string, a: nat, d: nat)
    requires 1 <= a && a + 2 <= d && d + 3 <= |s|
  {
    s[a] == '@' && s[d] == '.' &&
    AllLocalChars(s[..a]) && AllDomainChars(s[a + 1..d]) && AllLetters(s[d + 1..])
  }

  /** The first index of `c` in `s`, or -1. */
  function FirstIndex(s: string, c: char): (i: int)
    ensures -1 <= i < |s|
    ensures i == -1 ==> forall k :: 0 <= k < |s| ==> s[k] != c
    ensures i >= 0 ==> s[i] == c && forall k :: 0 <= k < i ==> s[k] != c
  {
    if s == [] then -1
    else if s[0] == c then 0
    else
      var j := FirstIndex(s[1..], c);
      if j == -1 then -1 else j + 1
  }

  /** The last index of `c` in `s`, or -1. */
  function LastIndex(s: string, c: char): (i: int)
    ensures -1 <= i < |s|
    ensures i == -1 ==> forall k :: 0 <= k < |s| ==> s[k] != c
    ensures i >= 0 ==> s[i] == c && forall k :: i < k < |s| ==> s[k] != c
  {
    if s == [] then -1
    else if s[|s| - 1] == c then |s| - 1
    else LastIndex(s[..|s| - 1], c)
  }

  /** The email expression decided left to right: the local part ends at
      the first `@` (it cannot contain one), and the top-level domain
      starts after the last `.` (it cannot contain one). */
  predicate EmailMatches(s: string)
  {
    var a := FirstIndex(s, '@');
    1 <= a && AllLocalChars(s[..a]) &&
    var d := LastIndex(s, '.');
    a + 2 <= d && d + 3 <= |s| && AllDomainChars(s[a + 1..d]) && AllLetters(s[d + 1..])
  }

  /** The left-to-right decision agrees with the expression's meaning. */
  lemma EmailMatchesIff(s: string)
    ensures EmailMatches(s) <==> EmailRegexMatches(s)
  {
    var a := FirstIndex(s, '@');
    var d := LastIndex(s, '.');
    if EmailMatches(s) {
      assert EmailSplitAt(s, a, d);
    }
    if EmailRegexMatches(s) {
      var a', d' :| 1 <= a' && a' + 2 <= d' && d' + 3 <= |s| && EmailSplitAt(s, a', d');
      // No local character is `@`, so `a'` is the first `@`.
      forall k | 0 <= k < a'
        ensures s[k] != '@'
      {
        assert s[..a'][k] == s[k];
        assert IsEmailLocalChar(s[..a'][k]);
      }
      assert a == a';
      // No letter is `.`, so `d'` is the last `.`.
      forall k | d' < k < |s|
        ensures s[k] != '.'
      {
        assert s[d' + 1..][k - d' - 1] == s[k];
        assert IsLetter(s[d' + 1..][k - d' - 1]);
      }
      assert d == d';
    }
  }

  /** Whether a non-empty value matches a pattern. */
  predicate Matches(p: Pattern, s: string)
  {
    match p
    case UsernamePattern => s != "" && AllUsernameChars(s)
    case EmployeeIdPattern => s != "" && AllEmployeeIdChars(s)
    case EmailPattern => EmailMatches(s)
  }

  /** `value.length`: JavaScript counts UTF-16 code units, so a character
      outside the Basic Multilingual Plane (code point `0x10000` or above)
      counts twice. */
  function Utf16Length(s: string): (n: nat)
    ensures |s| <= n <= 2 * |s|
    ensures (forall i :: 0 <= i < |s| ==> (s[i] as int) < 0x10000) ==> n == |s|
  {
    if s == [] then 0
    else Utf16Length(s[..|s| - 1]) + (if s[|s| - 1] as int >= 0x10000 then 2 else 1)
  }

  /** The message a field shows, or `None` when it is valid: the rules are
      tried in `react-hook-form`'s order and the first failure wins. */
  function FieldError(rules: Rules, value: string): (e: Option<string>)
    ensures e.None? <==> Satisfies(rules, value)
    ensures e.Some? ==>
      (rules.required.Some? && e.value == rules.required.value) ||
      (rules.minLength.Some? && e.value == rules.minLength.value.message) ||
      (rules.pattern.Some? && e.value == rules.pattern.value.message) ||
      (rules.validate.Some? && e.value == rules.validate.value.message)
  {
    if rules.required.Some? && value == "" then Some(rules.required.value)
    else if rules.minLength.Some? && value != "" && Utf16Length(value) < rules.minLength.value.value then
      Some(rules.minLength.value.message)
    else if rules.pattern.Some? && value != "" && !Matches(rules.pattern.value.regex, value) then
      Some(rules.pattern.value.message)
    else if rules.validate.Some? && value != rules.validate.value.other then
      Some(rules.validate.value.message)
    else None
  }

  /** Records a field's message, if it has one, in a form's error map. */
  function WithError(errors: map<string, string>, field: string, e: Option<string>): (r: map<string, string>)
    ensures e.None? ==> r == errors
    ensures e.Some? ==> r == errors[field := e.value]
  {
    if e.Some? then errors[field := e.value] else errors
  }

  /** A value satisfies the rules when each one holds on its own, read as a
      conjunction rather than as a chain of first failures. */
  predicate Satisfies(rules: Rules, value: string)
  {
    (rules.required.Some? ==> value != "") &&
    (rules.minLength.Some? && value != "" ==> Utf16Length(value) >= rules.minLength.value.value) &&
    (rules.pattern.Some? && value != "" ==> Matches(rules.pattern.value.regex, value)) &&
    (rules.validate.Some? ==> value == rules.validate.value.other)
  }
}
