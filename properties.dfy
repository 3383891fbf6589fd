/**
 * What `validate` promises, stated against `ValidationErrors` (which `Validate`
 * is proved to compute): the outcomes of each rule, that only the rules' own
 * fields are read, that a record is acceptable exactly when the error record is
 * empty, and what the form reports for its initial values and its hobby list.
 */
module ValidationProperties {
  import opened Wrappers
  import opened Form
  import opened Validation
  import EmailPattern

  // ---------------------------------------------------------------------------
  // Field by field

  /**
   * firstName, lastName, gender and country carry their fixed message exactly
   * when the field is `undefined` or `''`, and are absent otherwise.
   */
  lemma RequiredFieldsOutcome(v: FormValues)
    ensures ValidationErrors(v).firstName ==
      if v.firstName == None || v.firstName == Some("") then Some(Msg(Required)) else None
    ensures ValidationErrors(v).lastName ==
      if v.lastName == None || v.lastName == Some("") then Some(Msg(Required)) else None
    ensures ValidationErrors(v).gender ==
      if v.gender == None || v.gender == Some("") then Some(Msg(NoGender)) else None
    ensures ValidationErrors(v).country ==
      if v.country == None || v.country == Some("") then Some(Msg(NoCountry)) else None
  {
  }

  /** terms must be ticked; interests must hold at least one item. */
  lemma TermsAndInterestsOutcome(v: FormValues)
    ensures ValidationErrors(v).terms == if v.terms == Some(true) then None else Some(Msg(TermsNotAccepted))
    ensures ValidationErrors(v).interests ==
      if v.interests.Some? && |v.interests.value| >= 1 then None else Some(Msg(NoInterest))
  {
  }

  /**
   * Three outcomes for the e-mail, read against the regular expression itself:
   * empty is "required", a non-empty address the expression does not match is
   * "invalid", and a matching one has no key.
   */
  lemma EmailOutcome(v: FormValues)
    ensures v.email == None || v.email == Some("") ==> ValidationErrors(v).email == Some(Msg(Required))
    ensures v.email.Some? && v.email.value != "" && !EmailPattern.PatternMatches(v.email.value) ==>
      ValidationErrors(v).email == Some(Msg(BadEmail))
    ensures v.email.Some? && EmailPattern.PatternMatches(v.email.value) ==> ValidationErrors(v).email == None
  {
    if v.email.Some? {
      EmailPattern.MatchesIffPattern(v.email.value);
    }
  }

  /** Password: empty is "required", 1 to 5 characters "too short", 6 or more no key. */
  lemma PasswordOutcome(v: FormValues)
    ensures v.password == None || v.password == Some("") ==> ValidationErrors(v).password == Some(Msg(Required))
    ensures v.password.Some? && 1 <= |v.password.value| <= 5 ==> ValidationErrors(v).password == Some(Msg(ShortPassword))
    ensures v.password.Some? && |v.password.value| >= 6 ==> ValidationErrors(v).password == None
  {
  }

  /**
   * Age: missing or 0 is "required", any other value below 18 (negative ones
   * too) the minimum-age message, and 18 or more no key: there is no upper bound.
   */
  lemma AgeOutcome(v: FormValues)
    ensures v.age == None || v.age == Some(0) ==> ValidationErrors(v).age == Some(Msg(Required))
    ensures v.age.Some? && v.age.value != 0 && v.age.value < 18 ==> ValidationErrors(v).age == Some(Msg(Underage))
    ensures v.age.Some? && v.age.value >= 18 ==> ValidationErrors(v).age == None
  {
  }

  /** Bio: empty asks to tell about oneself, 1 to 9 characters for more detail, 10 or more no key. */
  lemma BioOutcome(v: FormValues)
    ensures v.bio == None || v.bio == Some("") ==> ValidationErrors(v).bio == Some(Msg(NoBio))
    ensures v.bio.Some? && 1 <= |v.bio.value| <= 9 ==> ValidationErrors(v).bio == Some(Msg(ShortBio))
    ensures v.bio.Some? && |v.bio.value| >= 10 ==> ValidationErrors(v).bio == None
  {
  }

  /**
   * Hobbies: a missing or empty list gets the message. For a non-empty list the
   * key is absent exactly when every hobby has a name; otherwise it is an array
   * with `{ name: msg }` at exactly the indices of the hobbies without a name.
   */
  lemma HobbiesOutcome(v: FormValues)
    ensures v.hobbies == None || v.hobbies == Some([]) ==> ValidationErrors(v).hobbies == Some(Msg(NoHobby))
    ensures v.hobbies.Some? && |v.hobbies.value| > 0 ==>
      (ValidationErrors(v).hobbies == None <==> forall i :: 0 <= i < |v.hobbies.value| ==> Filled(v.hobbies.value[i].name))
    ensures v.hobbies.Some? && |v.hobbies.value| > 0 && ValidationErrors(v).hobbies != None ==>
      && ValidationErrors(v).hobbies.value.PerHobby?
      && var hs, items := v.hobbies.value, ValidationErrors(v).hobbies.value.items;
      && |items| <= |hs|
      && (forall i :: 0 <= i < |hs| ==> (i < |items| && items[i].Some?) == !Filled(hs[i].name))
      && (forall i :: 0 <= i < |items| && items[i].Some? ==> items[i].value == HobbyError(NoHobbyName))
  {
    if v.hobbies.Some? && |v.hobbies.value| > 0 {
      var hs := v.hobbies.value;
      var last := LastMissing(hs);
      if last >= 0 {
        assert !Filled(hs[last].name);
      }
    }
  }

  // ---------------------------------------------------------------------------
  // Nothing else is checked

  /** newsletter, color and date never produce an error. */
  lemma UncheckedFields(v: FormValues)
    ensures ValidationErrors(v).newsletter == None
    ensures ValidationErrors(v).color == None
    ensures ValidationErrors(v).date == None
  {
  }

  /** The names of the hobbies: all the hobbies rule reads of the list. */
  function HobbyNames(hobbies: Option<seq<Hobby>>): Option<seq<Option<string>>> {
    if hobbies.None? then None
    else Some(seq(|hobbies.value|, i requires 0 <= i < |hobbies.value| => hobbies.value[i].name))
  }

  /** `v1` and `v2` agree on what the rule for key `f` reads. */
  predicate SameInput(v1: FormValues, v2: FormValues, f: Field) {
    match f
    case FirstName => v1.firstName == v2.firstName
    case LastName => v1.lastName == v2.lastName
    case Email => v1.email == v2.email
    case Password => v1.password == v2.password
    case Age => v1.age == v2.age
    case Gender => v1.gender == v2.gender
    case Interests => v1.interests == v2.interests
    case Country => v1.country == v2.country
    case Terms => v1.terms == v2.terms
    case Bio => v1.bio == v2.bio
    case Hobbies => HobbyNames(v1.hobbies) == HobbyNames(v2.hobbies)
    case Newsletter | Color | Date => true
  }

  /** Which hobby is the last without a name depends on the names only. */
  lemma LastMissingByNames(h1: seq<Hobby>, h2: seq<Hobby>)
    requires |h1| == |h2|
    requires forall i :: 0 <= i < |h1| ==> h1[i].name == h2[i].name
    ensures LastMissing(h1) == LastMissing(h2)
    ensures HobbyErrorArray(h1) == HobbyErrorArray(h2)
  {
  }

  /**
   * Each key depends only on its own field: two records that agree on it (for
   * hobbies, on the hobbies' names; a hobby's level is never read) get the same
   * value under that key.
   */
  lemma EachKeyReadsItsOwnField(v1: FormValues, v2: FormValues, f: Field)
    requires SameInput(v1, v2, f)
    ensures Get(ValidationErrors(v1), f) == Get(ValidationErrors(v2), f)
  {
    if f == Hobbies && v1.hobbies.Some? {
      var h1, h2 := v1.hobbies.value, v2.hobbies.value;
      assert |HobbyNames(v1.hobbies).value| == |h1|;
      forall i | 0 <= i < |h1| ensures h1[i].name == h2[i].name {
        assert HobbyNames(v1.hobbies).value[i] == HobbyNames(v2.hobbies).value[i];
      }
      LastMissingByNames(h1, h2);
    }
  }

  // ---------------------------------------------------------------------------
  // Acceptance

  /** The rules read as a description of an acceptable registration. */
  ghost predicate Acceptable(v: FormValues) {
    && Filled(v.firstName) && Filled(v.lastName)
    && v.email.Some? && EmailPattern.PatternMatches(v.email.value)
    && v.password.Some? && |v.password.value| >= 6
    && v.age.Some? && v.age.value >= 18
    && Filled(v.gender)
    && v.interests.Some? && |v.interests.value| >= 1
    && Filled(v.country)
    && v.terms == Some(true)
    && v.bio.Some? && |v.bio.value| >= 10
    && v.hobbies.Some? && |v.hobbies.value| >= 1
    && forall i :: 0 <= i < |v.hobbies.value| ==> Filled(v.hobbies.value[i].name)
  }

  /** A record may be submitted exactly when `validate` returns `{}`. */
  lemma EmptyIffAcceptable(v: FormValues)
    ensures ValidationErrors(v) == NoErrors <==> Acceptable(v)
  {
    if v.email.Some? {
      EmailPattern.MatchesIffPattern(v.email.value);
    }
    HobbiesOutcome(v);
  }

  // ---------------------------------------------------------------------------
  // The form as it starts and as its buttons change the hobby list

  /**
   * The initial values: gender and country are preset, every other rule
   * reports, and the single blank hobby gets its entry at index 0.
   */
  lemma InitialValuesErrors()
    ensures ValidationErrors(InitialValues) == NoErrors.(
      firstName := Some(Msg(Required)),
      lastName := Some(Msg(Required)),
      email := Some(Msg(Required)),
      password := Some(Msg(Required)),
      age := Some(Msg(Required)),
      interests := Some(Msg(NoInterest)),
      terms := Some(Msg(TermsNotAccepted)),
      bio := Some(Msg(NoBio)),
      hobbies := Some(PerHobby([Some(HobbyError(NoHobbyName))])))
  {
    var a := HobbyErrorArray([BlankHobby]);
    assert LastMissing([BlankHobby]) == 0;
    assert |a| == 1 && a[0] == Some(HobbyError(NoHobbyName));
    assert a == [Some(HobbyError(NoHobbyName))];
    assert InitialValues.hobbies == Some([BlankHobby]);
  }

  /**
   * The "add hobby" button appends a blank hobby, so the list then has an
   * error at the new index, and the entries before it are unchanged.
   */
  lemma PushedHobbyIsFlagged(v: FormValues, hs: seq<Hobby>)
    requires v.hobbies == Some(PushHobby(hs))
    ensures ValidationErrors(v).hobbies.Some? && ValidationErrors(v).hobbies.value.PerHobby?
    ensures |ValidationErrors(v).hobbies.value.items| == |hs| + 1
    ensures ValidationErrors(v).hobbies.value.items[|hs|] == Some(HobbyError(NoHobbyName))
    ensures forall k :: 0 <= k < |hs| ==>
      (ValidationErrors(v).hobbies.value.items[k].Some? <==> !Filled(hs[k].name))
  {
    var pushed := PushHobby(hs);
    assert LastMissing(pushed) == |hs|;
    forall k | 0 <= k < |hs| ensures pushed[k] == hs[k] {
    }
  }

  /**
   * Whatever the user does to the list, it never becomes empty, so the hobbies
   * key never holds the "add a hobby" message: it is absent (every hobby named)
   * or the per-index array.
   */
  lemma ClickedListNeverEmptyMessage(v: FormValues, actions: seq<HobbyAction>)
    requires v.hobbies == Some(Run(InitialValues.hobbies.value, actions))
    ensures ValidationErrors(v).hobbies.None? || ValidationErrors(v).hobbies.value.PerHobby?
  {
    HobbiesNeverEmpty(actions);
  }

  /** Typing a name into the initial blank hobby clears the hobbies key. */
  lemma NamingTheHobbyClearsItsError(v: FormValues)
    requires v.hobbies == Some(Run(InitialValues.hobbies.value, [Rename(0, Some("chess"))]))
    ensures ValidationErrors(v).hobbies == None
  {
    var hs := Run(InitialValues.hobbies.value, [Rename(0, Some("chess"))]);
    assert InitialValues.hobbies.value == [BlankHobby];
    assert [Rename(0, Some("chess"))][1..] == [];
    assert hs == [Hobby(Some("chess"), Some("beginner"))];
    assert LastMissing(hs) == -1;
  }
}
