/** The form-validation hook: an ordered chain of rules per field (`ValidateField`) and the form
    state it drives — current values, error messages and touched flags (`Form`). */
module Validation {
  import opened Wrappers
  import opened Text
  import Clock

  /** The rules configured for one field. `pattern` and `custom` are the caller's own tests, taken
      as given functions of the value. */
  datatype Rule = Rule(
    required: bool,
    minLength: Option<int>,
    maxLength: Option<int>,
    pattern: Option<string -> bool>,
    email: bool,
    phone: bool,
    custom: Option<string -> Option<string>>)

  type Config = map<string, Rule>

  const RequiredMessage := "Este campo es obligatorio"
  const EmailMessage := "Ingrese un email válido"
  const PhoneMessage := "Ingrese un teléfono válido"
  const PatternMessage := "El formato no es válido"

  /** An integer as a template literal writes it. */
  function IntText(n: int): string {
    if n < 0 then "-" + Clock.Decimal(-n) else Clock.Decimal(n)
  }

  function MinLengthMessage(n: int): string {
    "Debe tener al menos " + IntText(n) + " caracteres"
  }

  function MaxLengthMessage(n: int): string {
    "No puede tener más de " + IntText(n) + " caracteres"
  }

  /** A length limit takes part only when it is set and not zero. */
  predicate Enabled(limit: Option<int>) {
    limit.Some? && limit.value != 0
  }

  /** A message counts as an error only when it is present and not empty. */
  predicate Truthy(e: Option<string>) {
    e.Some? && e.value != ""
  }

  /** `!value || value.trim() === ''`. */
  predicate Blank(value: string) {
    value == "" || Trim(value) == ""
  }

  // ---------------------------------------------------------------------------------------------
  // The two built-in formats

  /** A character `[^\s@]` matches. */
  predicate EmailChar(c: char) {
    !IsSpace(c) && c != '@'
  }

  /** `/^[^\s@]+@[^\s@]+\.[^\s@]+$/.test(s)`: a non-empty run, '@', a non-empty run, '.', a
      non-empty run, where no run holds white space or '@'. */
  predicate IsEmail(s: string)
    ensures IsEmail(s) ==> |s| >= 5 && '@' in s
  {
    exists at, dot :: 0 < at && at + 1 < dot < |s| - 1 && s[at] == '@' && s[dot] == '.' &&
      forall k :: 0 <= k < |s| && k != at ==> EmailChar(s[k])
  }

  /** An accepted email has exactly one '@', neither first nor last, no white space at all, and a
      '.' after the '@' that is neither next to it nor last. */
  lemma EmailShape(s: string, at: nat)
    requires at < |s| && s[at] == '@'
    ensures IsEmail(s) <==>
      0 < at &&
      (forall k :: 0 <= k < |s| && k != at ==> s[k] != '@') &&
      (forall k :: 0 <= k < |s| ==> !IsSpace(s[k])) &&
      (exists dot :: at + 1 < dot < |s| - 1 && s[dot] == '.')
  {
    if IsEmail(s) {
      var a, d :| 0 < a && a + 1 < d < |s| - 1 && s[a] == '@' && s[d] == '.' &&
        forall k :: 0 <= k < |s| && k != a ==> EmailChar(s[k]);
      assert !EmailChar(s[at]);
      assert a == at;
      assert !IsSpace(s[at]);
    }
  }

  /** A character `[0-9\s\-\(\)]` matches. */
  predicate PhoneChar(c: char) {
    Clock.IsDigit(c) || IsSpace(c) || c == '-' || c == '(' || c == ')'
  }

  /** Nine or more characters from position p on, all from the class `[0-9\s\-\(\)]`. */
  ghost predicate PhoneRunFrom(s: string, p: nat) {
    p <= |s| && |s| - p >= 9 && forall k :: p <= k < |s| ==> PhoneChar(s[k])
  }

  /** `/^[+]?[0-9\s\-\(\)]{9,}$/.test(s)`, read directly: either the optional '+' is not taken,
      or it is taken and matches a leading '+'. */
  ghost predicate PhoneMatches(s: string) {
    PhoneRunFrom(s, 0) || (|s| > 0 && s[0] == '+' && PhoneRunFrom(s, 1))
  }

  /** The phone test as the site runs it: strip one leading '+', then demand nine or more
      class characters. */
  predicate IsPhone(s: string)
    ensures IsPhone(s) ==> |s| >= 9
  {
    var digits := StripPlus(s);
    |digits| >= 9 && forall k :: 0 <= k < |digits| ==> PhoneChar(digits[k])
  }

  /** The value without one leading '+', if it has one. */
  function StripPlus(s: string): string {
    if |s| > 0 && s[0] == '+' then s[1..] else s
  }

  /** Stripping the '+' whenever it is there is the only way the pattern can match, since '+'
      itself is not in the class. */
  lemma PhoneDecision(s: string)
    ensures IsPhone(s) <==> PhoneMatches(s)
  {
    var p := if |s| > 0 && s[0] == '+' then 1 else 0;
    var digits := StripPlus(s);
    assert forall k :: 0 <= k < |digits| ==> digits[k] == s[p + k];
    if IsPhone(s) {
      assert |digits| >= 9 && forall k :: 0 <= k < |digits| ==> PhoneChar(digits[k]);
      assert forall k :: p <= k < |s| ==> PhoneChar(s[k]) by {
        forall k | p <= k < |s| ensures PhoneChar(s[k]) {
          assert 0 <= k - p < |digits| && s[k] == digits[k - p];
          assert PhoneChar(digits[k - p]);
        }
      }
    }
    if PhoneMatches(s) && p == 1 {
      assert !PhoneChar(s[0]);
      assert PhoneRunFrom(s, 1);
    }
  }

  // ---------------------------------------------------------------------------------------------
  // One field

  /** `validateField(name, value)`: `None` is null, `Some(m)` the message returned. */
  function ValidateField(config: Config, name: string, value: string): (r: Option<string>)
    ensures r.Some? ==> name in config
  {
    if name !in config then None
    else
      var rule := config[name];
      if rule.required && Blank(value) then Some(RequiredMessage)
      else if Blank(value) then None
      else if Enabled(rule.minLength) && |value| < rule.minLength.value then Some(MinLengthMessage(rule.minLength.value))
      else if Enabled(rule.maxLength) && |value| > rule.maxLength.value then Some(MaxLengthMessage(rule.maxLength.value))
      else if rule.email && !IsEmail(value) then Some(EmailMessage)
      else if rule.phone && !IsPhone(value) then Some(PhoneMessage)
      else if rule.pattern.Some? && !rule.pattern.value(value) then Some(PatternMessage)
      else if rule.custom.Some? then rule.custom.value(value)
      else None
  }

  /** The checks applied to a non-blank value, in order. */
  datatype Check = MinLength | MaxLength | Email | Phone | Pattern | Custom

  const CheckOrder: seq<Check> := [MinLength, MaxLength, Email, Phone, Pattern, Custom]

  /** What one check says about a value on its own: `None` when it passes or is not configured;
      the custom check says whatever the caller's function says. */
  function CheckResult(rule: Rule, c: Check, value: string): Option<string> {
    match c
    case MinLength =>
      if Enabled(rule.minLength) && |value| < rule.minLength.value then Some(MinLengthMessage(rule.minLength.value)) else None
    case MaxLength =>
      if Enabled(rule.maxLength) && |value| > rule.maxLength.value then Some(MaxLengthMessage(rule.maxLength.value)) else None
    case Email => if rule.email && !IsEmail(value) then Some(EmailMessage) else None
    case Phone => if rule.phone && !IsPhone(value) then Some(PhoneMessage) else None
    case Pattern => if rule.pattern.Some? && !rule.pattern.value(value) then Some(PatternMessage) else None
    case Custom => if rule.custom.Some? then rule.custom.value(value) else None
  }

  /** The answer of the first check in `checks` that objects, or `None` when none does. */
  function FirstObjection(rule: Rule, checks: seq<Check>, value: string): Option<string> {
    if checks == [] then None
    else if CheckResult(rule, checks[0], value).Some? then CheckResult(rule, checks[0], value)
    else FirstObjection(rule, checks[1..], value)
  }

  /** The first objection is that of check i exactly when check i objects and every check before it passes. */
  lemma {:induction false} FirstObjectionWins(rule: Rule, checks: seq<Check>, value: string, i: nat)
    requires i < |checks|
    requires CheckResult(rule, checks[i], value).Some?
    requires forall j :: 0 <= j < i ==> CheckResult(rule, checks[j], value).None?
    ensures FirstObjection(rule, checks, value) == CheckResult(rule, checks[i], value)
    decreases i
  {
    if i > 0 {
      assert CheckResult(rule, checks[0], value).None?;
      FirstObjectionWins(rule, checks[1..], value, i - 1);
    }
  }

  /** The guards: an unconfigured field never errs; a required blank value gets the required
      message before any other rule; a blank value that is not required passes whatever the rules. */
  lemma BlankGuards(config: Config, name: string, value: string)
    ensures name !in config ==> ValidateField(config, name, value).None?
    ensures name in config && config[name].required && Blank(value) ==>
      ValidateField(config, name, value) == Some(RequiredMessage)
    ensures name in config && !config[name].required && Blank(value) ==>
      ValidateField(config, name, value).None?
  {
  }

  /** The six checks in order, unrolled. */
  lemma FirstObjectionInOrder(rule: Rule, v: string)
    ensures FirstObjection(rule, CheckOrder, v) ==
      if CheckResult(rule, MinLength, v).Some? then CheckResult(rule, MinLength, v)
      else if CheckResult(rule, MaxLength, v).Some? then CheckResult(rule, MaxLength, v)
      else if CheckResult(rule, Email, v).Some? then CheckResult(rule, Email, v)
      else if CheckResult(rule, Phone, v).Some? then CheckResult(rule, Phone, v)
      else if CheckResult(rule, Pattern, v).Some? then CheckResult(rule, Pattern, v)
      else CheckResult(rule, Custom, v)
  {
    var c := CheckOrder;
    assert c[5..] == [Custom] && c[5..][1..] == [];
    assert FirstObjection(rule, c[5..], v) == CheckResult(rule, Custom, v);
    assert c[4..][0] == Pattern && c[4..][1..] == c[5..];
    assert FirstObjection(rule, c[4..], v) ==
      if CheckResult(rule, Pattern, v).Some? then CheckResult(rule, Pattern, v) else FirstObjection(rule, c[5..], v);
    assert c[3..][0] == Phone && c[3..][1..] == c[4..];
    assert FirstObjection(rule, c[3..], v) ==
      if CheckResult(rule, Phone, v).Some? then CheckResult(rule, Phone, v) else FirstObjection(rule, c[4..], v);
    assert c[2..][0] == Email && c[2..][1..] == c[3..];
    assert FirstObjection(rule, c[2..], v) ==
      if CheckResult(rule, Email, v).Some? then CheckResult(rule, Email, v) else FirstObjection(rule, c[3..], v);
    assert c[1..][0] == MaxLength && c[1..][1..] == c[2..];
    assert FirstObjection(rule, c[1..], v) ==
      if CheckResult(rule, MaxLength, v).Some? then CheckResult(rule, MaxLength, v) else FirstObjection(rule, c[2..], v);
    assert c[0] == MinLength;
  }

  /** For a non-blank value of a configured field, the result is the first objection among
      min length, max length, email, phone, pattern and custom, in that order. */
  lemma ValidateFieldIsFirstObjection(config: Config, name: string, value: string)
    requires name in config && !Blank(value)
    ensures ValidateField(config, name, value) == FirstObjection(config[name], CheckOrder, value)
  {
    FirstObjectionInOrder(config[name], value);
  }

  // ---------------------------------------------------------------------------------------------
  // The form state

  /** `data[name] || ''`. */
  function Get(data: map<string, string>, name: string): string {
    if name in data then data[name] else ""
  }

  /** `error || undefined`: an empty or absent message is stored as `undefined`. */
  function Stored(e: Option<string>): (r: Option<string>)
    ensures r.Some? <==> Truthy(e)
    ensures Truthy(e) ==> r == e
  {
    if Truthy(e) then e else None
  }

  /** The errors `validateAll` records for the fields in `fields`: each one that fails, with its message. */
  function FailingAmong(config: Config, data: map<string, string>, fields: set<string>): (m: map<string, Option<string>>)
    ensures forall f :: f in m <==> f in fields && Truthy(ValidateField(config, f, Get(data, f)))
    ensures forall f :: f in m ==> m[f] == ValidateField(config, f, Get(data, f))
  {
    map f | f in fields && Truthy(ValidateField(config, f, Get(data, f))) :: ValidateField(config, f, Get(data, f))
  }

  /** Validating one more field adds its entry exactly when it fails. */
  lemma FailingStep(config: Config, data: map<string, string>, done: set<string>, x: string)
    requires x !in done
    ensures FailingAmong(config, data, done + {x}) ==
      if Truthy(ValidateField(config, x, Get(data, x))) then FailingAmong(config, data, done)[x := ValidateField(config, x, Get(data, x))]
      else FailingAmong(config, data, done)
  {
  }

  /** No recorded errors exactly when every field passes. */
  lemma NoFailingIffAllPass(config: Config, data: map<string, string>, fields: set<string>)
    ensures FailingAmong(config, data, fields) == map[] <==>
      forall f :: f in fields ==> !Truthy(ValidateField(config, f, Get(data, f)))
  {
    var m := FailingAmong(config, data, fields);
    if m != map[] {
      var f :| f in m;
    }
  }

  lemma NoKeysIffEmpty<K, V>(m: map<K, V>)
    ensures |m| == 0 <==> m == map[]
  {
    if m != map[] {
      var k :| k in m;
      assert k in m.Keys;
    }
  }

  class Form {
    const initialData: map<string, string>
    const config: Config
    var data: map<string, string>
    /** A key mapped to `None` is a key whose value is `undefined`: present, but no error. */
    var errors: map<string, Option<string>>
    var touched: map<string, bool>

    constructor (initialData: map<string, string>, config: Config)
      ensures this.initialData == initialData && this.config == config
      ensures data == initialData && errors == map[] && touched == map[]
    {
      this.initialData := initialData;
      this.config := config;
      data := initialData;
      errors := map[];
      touched := map[];
    }

    function IsTouched(name: string): bool
      reads this
    {
      name in touched && touched[name]
    }

    /** `isFieldInvalid(name)`: touched and carrying a non-empty message. */
    function IsFieldInvalid(name: string): (invalid: bool)
      reads this
      ensures invalid ==> name in errors && name in touched
      ensures invalid ==> !IsValid()
    {
      IsTouched(name) && name in errors && Truthy(errors[name])
    }

    /** `isValid`: the error object has no keys at all. */
    function IsValid(): (valid: bool)
      reads this
      ensures valid <==> errors == map[]
      ensures valid <==> forall f :: f !in errors
    {
      |errors| == 0
    }

    /** `validateAll()`: validates every configured field (a missing value counts as ''), records
        exactly the failing ones, marks every configured field touched, and reports whether none failed. */
    method ValidateAll() returns (ok: bool)
      modifies this
      ensures data == old(data)
      ensures errors == FailingAmong(config, data, config.Keys)
      ensures touched == map f | f in config :: true
      ensures ok <==> forall f :: f in config ==> !Truthy(ValidateField(config, f, Get(data, f)))
      ensures ok <==> IsValid()
      ensures forall f :: IsFieldInvalid(f) <==> f in config && Truthy(ValidateField(config, f, Get(data, f)))
    {
      var newErrors: map<string, Option<string>> := map[];
      var isValid := true;
      var done: set<string> := {};
      var pending := config.Keys;
      while pending != {}
        invariant unchanged(this)
        invariant done + pending == config.Keys && done !! pending
        invariant newErrors == FailingAmong(config, data, done)
        invariant isValid <==> newErrors == map[]
        decreases pending
      {
        var field :| field in pending;
        var error := ValidateField(config, field, Get(data, field));
        FailingStep(config, data, done, field);
        if Truthy(error) {
          newErrors := newErrors[field := error];
          isValid := false;
        }
        done := done + {field};
        pending := pending - {field};
      }
      NoFailingIffAllPass(config, data, config.Keys);
      NoKeysIffEmpty(newErrors);
      errors := newErrors;
      touched := map f | f in config :: true;
      ok := isValid;
    }

    /** `updateField(name, value)`: stores the value; re-validates the field only when it is touched. */
    method UpdateField(name: string, value: string)
      modifies this
      ensures data == old(data)[name := value]
      ensures touched == old(touched)
      ensures errors == if old(IsTouched(name)) then old(errors)[name := Stored(ValidateField(config, name, value))] else old(errors)
      ensures old(IsTouched(name)) ==> (IsFieldInvalid(name) <==> Truthy(ValidateField(config, name, value)))
      ensures forall f :: f != name ==> IsFieldInvalid(f) == old(IsFieldInvalid(f))
    {
      data := data[name := value];
      if IsTouched(name) {
        var error := ValidateField(config, name, value);
        errors := errors[name := Stored(error)];
      }
    }

    /** `handleBlur(name)`: marks the field touched and records its error for the current value.
        The key is written even when there is no error, so the form no longer counts as valid. */
    method HandleBlur(name: string)
      modifies this
      ensures data == old(data)
      ensures touched == old(touched)[name := true]
      ensures errors == old(errors)[name := Stored(ValidateField(config, name, Get(data, name)))]
      ensures IsFieldInvalid(name) <==> Truthy(ValidateField(config, name, Get(data, name)))
      ensures forall f :: f != name ==> IsFieldInvalid(f) == old(IsFieldInvalid(f))
      ensures !IsValid()
    {
      touched := touched[name := true];
      var error := ValidateField(config, name, Get(data, name));
      errors := errors[name := Stored(error)];
      assert name in errors;
    }

    /** `resetForm()`: back to the initial values with no errors and nothing touched. */
    method ResetForm()
      modifies this
      ensures data == initialData && errors == map[] && touched == map[]
      ensures IsValid() && forall f :: !IsFieldInvalid(f)
    {
      data := initialData;
      errors := map[];
      touched := map[];
    }
  }
}
