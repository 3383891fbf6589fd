/**
 * The form's `validate`: from the registration record to the error record that
 * holds, under a field's name, the message shown under that field.
 *
 * The error record is a partial record over the field names: a slot per field,
 * `None` where the key is absent. `ValidationErrors` states field by field what
 * the errors are; the method `Validate` builds the record step by step as the
 * source does and is proved to produce exactly `ValidationErrors`. What the
 * rules promise (each field's outcomes, that nothing else is checked, that each
 * key depends on its own field only, and that a record is acceptable exactly
 * when the error record is empty) is proved in `ValidationProperties`.
 */
module Validation {
  import opened Wrappers
  import opened Form
  import EmailPattern

  /** The names of the record's fields, the keys of the error record. */
  datatype Field =
    | FirstName | LastName | Email | Password | Age | Gender | Interests
    | Country | Newsletter | Terms | Bio | Color | Date | Hobbies

  /** The messages, as tags; `Text` gives the words the form shows. */
  datatype Message =
    | Required | BadEmail | ShortPassword | Underage | NoGender | NoInterest
    | NoCountry | TermsNotAccepted | NoBio | ShortBio | NoHobby | NoHobbyName

  function Text(m: Message): string {
    match m
    case Required => "Обязательное поле"
    case BadEmail => "Некорректный email адрес"
    case ShortPassword => "Пароль должен быть не менее 6 символов"
    case Underage => "Возраст должен быть не менее 18 лет"
    case NoGender => "Выберите пол"
    case NoInterest => "Выберите хотя бы один интерес"
    case NoCountry => "Выберите страну"
    case TermsNotAccepted => "Необходимо принять условия"
    case NoBio => "Расскажите о себе"
    case ShortBio => "Расскажите о себе подробнее (минимум 10 символов)"
    case NoHobby => "Добавьте хотя бы одно хобби"
    case NoHobbyName => "Название хобби обязательно"
  }

  /** An element `{ name: msg }` of the `errors.hobbies` array. */
  datatype HobbyError = HobbyError(name: Message)

  /**
   * The value under one key: a message, or for `hobbies` a sparse array whose
   * holes (`None`) are the entries without an error.
   */
  datatype FieldError = Msg(msg: Message) | PerHobby(items: seq<Option<HobbyError>>)

  /** The error record; `None` is an absent key. */
  datatype Errors = Errors(
    firstName: Option<FieldError>,
    lastName: Option<FieldError>,
    email: Option<FieldError>,
    password: Option<FieldError>,
    age: Option<FieldError>,
    gender: Option<FieldError>,
    interests: Option<FieldError>,
    country: Option<FieldError>,
    newsletter: Option<FieldError>,
    terms: Option<FieldError>,
    bio: Option<FieldError>,
    color: Option<FieldError>,
    date: Option<FieldError>,
    hobbies: Option<FieldError>)

  /** `{}`: the record with no key. */
  const NoErrors: Errors :=
    Errors(None, None, None, None, None, None, None, None, None, None, None, None, None, None)

  /** `errors[f]`, `None` when the key is absent. */
  function Get(e: Errors, f: Field): Option<FieldError> {
    match f
    case FirstName => e.firstName
    case LastName => e.lastName
    case Email => e.email
    case Password => e.password
    case Age => e.age
    case Gender => e.gender
    case Interests => e.interests
    case Country => e.country
    case Newsletter => e.newsletter
    case Terms => e.terms
    case Bio => e.bio
    case Color => e.color
    case Date => e.date
    case Hobbies => e.hobbies
  }

  // ---------------------------------------------------------------------------
  // The array `errors.hobbies`

  /** JavaScript's `a[index] = x` on an array: it grows the array, leaving holes. */
  function StoreAt<T>(a: seq<Option<T>>, index: nat, x: T): (r: seq<Option<T>>)
    ensures |r| == if index < |a| then |a| else index + 1
    ensures r[index] == Some(x)
    ensures forall k :: 0 <= k < |a| && k != index ==> r[k] == a[k]
    ensures forall k :: |a| <= k < index ==> r[k] == None
  {
    if index < |a| then a[index := Some(x)]
    else a + seq(index - |a|, _ => None) + [Some(x)]
  }

  /** `!hobby.name`: the hobby's name is `undefined` or `''`. */
  predicate Missing(h: Hobby) {
    !Filled(h.name)
  }

  /** Index of the last hobby without a name, or -1 when every hobby has one. */
  function LastMissing(hs: seq<Hobby>): (r: int)
    ensures -1 <= r < |hs|
    ensures r >= 0 ==> Missing(hs[r])
    ensures forall k :: r < k < |hs| ==> !Missing(hs[k])
  {
    if |hs| == 0 then -1
    else if Missing(hs[|hs| - 1]) then |hs| - 1
    else LastMissing(hs[..|hs| - 1])
  }

  /** The per-index array: an entry at each hobby without a name, ending at the last one. */
  function HobbyErrorArray(hs: seq<Hobby>): seq<Option<HobbyError>> {
    seq(LastMissing(hs) + 1, k requires 0 <= k <= LastMissing(hs) =>
      if Missing(hs[k]) then Some(HobbyError(NoHobbyName)) else None)
  }

  // ---------------------------------------------------------------------------
  // The rules, field by field

  /** The rule of a field that only has to be filled in. */
  function RequiredError(s: Option<string>, m: Message): Option<FieldError> {
    if Filled(s) then None else Some(Msg(m))
  }

  function EmailError(email: Option<string>): Option<FieldError> {
    if !Filled(email) then Some(Msg(Required))
    else if !EmailPattern.Matches(email.value) then Some(Msg(BadEmail))
    else None
  }

  function PasswordError(password: Option<string>): Option<FieldError> {
    if !Filled(password) then Some(Msg(Required))
    else if |password.value| < 6 then Some(Msg(ShortPassword))
    else None
  }

  /** `!values.age`: `undefined`, `NaN` and `0` are all falsy. */
  function AgeError(age: Option<int>): Option<FieldError> {
    if age.None? || age.value == 0 then Some(Msg(Required))
    else if age.value < 18 then Some(Msg(Underage))
    else None
  }

  function InterestsError(interests: Option<seq<string>>): Option<FieldError> {
    if interests.None? || |interests.value| == 0 then Some(Msg(NoInterest)) else None
  }

  function TermsError(terms: Option<bool>): Option<FieldError> {
    if terms == Some(true) then None else Some(Msg(TermsNotAccepted))
  }

  function BioError(bio: Option<string>): Option<FieldError> {
    if !Filled(bio) then Some(Msg(NoBio))
    else if |bio.value| < 10 then Some(Msg(ShortBio))
    else None
  }

  function HobbiesError(hobbies: Option<seq<Hobby>>): Option<FieldError> {
    if hobbies.None? || |hobbies.value| == 0 then Some(Msg(NoHobby))
    else if LastMissing(hobbies.value) < 0 then None
    else Some(PerHobby(HobbyErrorArray(hobbies.value)))
  }

  /** The error record: each key holds what its own field's rule reports. */
  function ValidationErrors(v: FormValues): Errors {
    Errors(
      firstName := RequiredError(v.firstName, Required),
      lastName := RequiredError(v.lastName, Required),
      email := EmailError(v.email),
      password := PasswordError(v.password),
      age := AgeError(v.age),
      gender := RequiredError(v.gender, NoGender),
      interests := InterestsError(v.interests),
      country := RequiredError(v.country, NoCountry),
      newsletter := None,
      terms := TermsError(v.terms),
      bio := BioError(v.bio),
      color := None,
      date := None,
      hobbies := HobbiesError(v.hobbies))
  }

  // ---------------------------------------------------------------------------
  // The source's procedure

  /** `errors[f] = x`, or `delete errors[f]` when `x` is `None`. */
  function Set(e: Errors, f: Field, x: Option<FieldError>): (r: Errors)
    ensures Get(r, f) == x
    ensures forall g :: g != f ==> Get(r, g) == Get(e, g)
  {
    match f
    case FirstName => e.(firstName := x)
    case LastName => e.(lastName := x)
    case Email => e.(email := x)
    case Password => e.(password := x)
    case Age => e.(age := x)
    case Gender => e.(gender := x)
    case Interests => e.(interests := x)
    case Country => e.(country := x)
    case Newsletter => e.(newsletter := x)
    case Terms => e.(terms := x)
    case Bio => e.(bio := x)
    case Color => e.(color := x)
    case Date => e.(date := x)
    case Hobbies => e.(hobbies := x)
  }

  /** Two error records with the same value under every key are the same record. */
  lemma SameKeysSameRecord(a: Errors, b: Errors)
    requires forall f :: Get(a, f) == Get(b, f)
    ensures a == b
  {
    assert Get(a, FirstName) == Get(b, FirstName) && Get(a, LastName) == Get(b, LastName);
    assert Get(a, Email) == Get(b, Email) && Get(a, Password) == Get(b, Password);
    assert Get(a, Age) == Get(b, Age) && Get(a, Gender) == Get(b, Gender);
    assert Get(a, Interests) == Get(b, Interests) && Get(a, Country) == Get(b, Country);
    assert Get(a, Newsletter) == Get(b, Newsletter) && Get(a, Terms) == Get(b, Terms);
    assert Get(a, Bio) == Get(b, Bio) && Get(a, Color) == Get(b, Color);
    assert Get(a, Date) == Get(b, Date) && Get(a, Hobbies) == Get(b, Hobbies);
  }

  /** `if (!values.f) errors.f = msg`, for a field that only has to be filled in. */
  method CheckFilled(errors: Errors, f: Field, s: Option<string>, m: Message) returns (r: Errors)
    requires Get(errors, f).None?
    ensures r == Set(errors, f, RequiredError(s, m))
  {
    r := errors;
    if !Filled(s) {
      r := Set(r, f, Some(Msg(m)));
    }
  }

  /** The e-mail rule: required first, then the pattern. */
  method CheckEmail(errors: Errors, email: Option<string>) returns (r: Errors)
    requires errors.email.None?
    ensures r == errors.(email := EmailError(email))
  {
    r := errors;
    if !Filled(email) {
      r := r.(email := Some(Msg(Required)));
    } else if !EmailPattern.Matches(email.value) {
      r := r.(email := Some(Msg(BadEmail)));
    }
  }

  /** The password rule: required first, then at least 6 characters. */
  method CheckPassword(errors: Errors, password: Option<string>) returns (r: Errors)
    requires errors.password.None?
    ensures r == errors.(password := PasswordError(password))
  {
    r := errors;
    if !Filled(password) {
      r := r.(password := Some(Msg(Required)));
    } else if |password.value| < 6 {
      r := r.(password := Some(Msg(ShortPassword)));
    }
  }

  /** The age rule: required (a falsy number is missing), then at least 18. */
  method CheckAge(errors: Errors, age: Option<int>) returns (r: Errors)
    requires errors.age.None?
    ensures r == errors.(age := AgeError(age))
  {
    r := errors;
    if age.None? || age.value == 0 {
      r := r.(age := Some(Msg(Required)));
    } else if age.value < 18 {
      r := r.(age := Some(Msg(Underage)));
    }
  }

  /** The interests rule: the list is missing or empty. */
  method CheckInterests(errors: Errors, interests: Option<seq<string>>) returns (r: Errors)
    requires errors.interests.None?
    ensures r == errors.(interests := InterestsError(interests))
  {
    r := errors;
    if interests.None? || |interests.value| == 0 {
      r := r.(interests := Some(Msg(NoInterest)));
    }
  }

  /** The terms rule: the box is not ticked. */
  method CheckTerms(errors: Errors, terms: Option<bool>) returns (r: Errors)
    requires errors.terms.None?
    ensures r == errors.(terms := TermsError(terms))
  {
    r := errors;
    if terms != Some(true) {
      r := r.(terms := Some(Msg(TermsNotAccepted)));
    }
  }

  /** The bio rule: required first, then at least 10 characters. */
  method CheckBio(errors: Errors, bio: Option<string>) returns (r: Errors)
    requires errors.bio.None?
    ensures r == errors.(bio := BioError(bio))
  {
    r := errors;
    if !Filled(bio) {
      r := r.(bio := Some(Msg(NoBio)));
    } else if |bio.value| < 10 {
      r := r.(bio := Some(Msg(ShortBio)));
    }
  }

  /**
   * The hobbies rule: a missing or empty list gets the message; otherwise the
   * `forEach` over the list creates `errors.hobbies` as `[]` at the first hobby
   * without a name and stores `{ name: msg }` at the index of each such hobby.
   */
  method CheckHobbies(errors: Errors, hobbies: Option<seq<Hobby>>) returns (r: Errors)
    requires errors.hobbies.None?
    ensures r == errors.(hobbies := HobbiesError(hobbies))
  {
    r := errors;
    if hobbies.None? || |hobbies.value| == 0 {
      r := r.(hobbies := Some(Msg(NoHobby)));
    } else {
      var list := hobbies.value;
      var index := 0;
      while index < |list|
        invariant 0 <= index <= |list|
        invariant r.(hobbies := None) == errors
        invariant r.hobbies ==
          if LastMissing(list[..index]) < 0 then None
          else Some(PerHobby(HobbyErrorArray(list[..index])))
      {
        if !Filled(list[index].name) {
          if r.hobbies.None? {
            r := r.(hobbies := Some(PerHobby([])));
          }
          if r.hobbies.value.PerHobby? {
            var items := r.hobbies.value.items;
            r := r.(hobbies := Some(PerHobby(StoreAt(items, index, HobbyError(NoHobbyName)))));
          }
        }
        HobbyErrorArrayStep(list, index);
        index := index + 1;
      }
      assert list[..index] == list;
    }
  }

  /** Starts from `{}` and applies the rules one after another, in the source's order. */
  method Validate(values: FormValues) returns (errors: Errors)
    ensures errors == ValidationErrors(values)
  {
    errors := NoErrors;
    errors := CheckFilled(errors, FirstName, values.firstName, Required);
    errors := CheckFilled(errors, LastName, values.lastName, Required);
    errors := CheckEmail(errors, values.email);
    errors := CheckPassword(errors, values.password);
    errors := CheckAge(errors, values.age);
    errors := CheckFilled(errors, Gender, values.gender, NoGender);
    errors := CheckInterests(errors, values.interests);
    errors := CheckFilled(errors, Country, values.country, NoCountry);
    errors := CheckTerms(errors, values.terms);
    errors := CheckBio(errors, values.bio);
    errors := CheckHobbies(errors, values.hobbies);
    SameKeysSameRecord(errors, ValidationErrors(values));
  }

  /** How the per-index array grows by one hobby, as the loop of `Validate` grows it. */
  lemma HobbyErrorArrayStep(hs: seq<Hobby>, i: nat)
    requires i < |hs|
    ensures Missing(hs[i]) ==> LastMissing(hs[..i + 1]) == i
    ensures !Missing(hs[i]) ==> LastMissing(hs[..i + 1]) == LastMissing(hs[..i])
    ensures Missing(hs[i]) ==>
      HobbyErrorArray(hs[..i + 1]) == StoreAt(HobbyErrorArray(hs[..i]), i, HobbyError(NoHobbyName))
    ensures !Missing(hs[i]) ==> HobbyErrorArray(hs[..i + 1]) == HobbyErrorArray(hs[..i])
  {
    var p, q := hs[..i], hs[..i + 1];
    assert p == q[..i];
    var a, b := HobbyErrorArray(p), HobbyErrorArray(q);
    if Missing(hs[i]) {
      var c := StoreAt(a, i, HobbyError(NoHobbyName));
      assert |b| == |c|;
      forall k | 0 <= k < |b| ensures b[k] == c[k] {
        if k < |a| && k != i {
          assert q[k] == p[k];
        }
      }
    } else {
      assert LastMissing(q) == LastMissing(p);
      forall k | 0 <= k < |b| ensures b[k] == a[k] {
        assert q[k] == p[k];
      }
    }
  }
}
