/**
 * The registration record of the react-final-form form, its initial values and
 * the two buttons that grow and shrink its dynamic `hobbies` list.
 *
 * Every property is optional because final-form leaves an untouched field
 * `undefined`; `age` holds the number after the field's own parsing, where
 * `None` stands for both `undefined` and `NaN` (both are falsy).
 */
module Form {
  import opened Wrappers

  /** One entry of the dynamic `hobbies` list. */
  datatype Hobby = Hobby(name: Option<string>, level: Option<string>)

  datatype FormValues = FormValues(
    firstName: Option<string>,
    lastName: Option<string>,
    email: Option<string>,
    password: Option<string>,
    age: Option<int>,
    gender: Option<string>,
    interests: Option<seq<string>>,
    country: Option<string>,
    newsletter: Option<bool>,
    terms: Option<bool>,
    bio: Option<string>,
    color: Option<string>,
    date: Option<string>,
    hobbies: Option<seq<Hobby>>)

  /** JavaScript truthiness of an optional string: `undefined` and `''` are falsy. */
  predicate Filled(s: Option<string>) {
    s.Some? && s.value != ""
  }

  /** The entry the "add hobby" button pushes, and the one the form starts with. */
  const BlankHobby: Hobby := Hobby(Some(""), Some("beginner"))

  /** The form's initial values: every field not listed is `undefined`. */
  const InitialValues: FormValues := FormValues(
    firstName := None, lastName := None, email := None, password := None, age := None,
    gender := Some("male"), interests := Some([]), country := Some("ru"),
    newsletter := Some(true), terms := None, bio := None, color := None, date := None,
    hobbies := Some([BlankHobby]))

  /** The "add hobby" button: appends a blank hobby. */
  function PushHobby(hs: seq<Hobby>): (r: seq<Hobby>)
    ensures |r| == |hs| + 1
    ensures forall k :: 0 <= k < |hs| ==> r[k] == hs[k]
    ensures r[|hs|] == BlankHobby
  {
    hs + [BlankHobby]
  }

  /**
   * The remove button of entry `index`. It is disabled while the list has one
   * entry, so a click then changes nothing.
   */
  function RemoveHobby(hs: seq<Hobby>, index: nat): (r: seq<Hobby>)
    requires index < |hs|
    ensures |hs| == 1 ==> r == hs
    ensures |hs| > 1 ==> |r| == |hs| - 1
    ensures |hs| > 1 ==> forall k :: 0 <= k < index ==> r[k] == hs[k]
    ensures |hs| > 1 ==> forall k :: index <= k < |r| ==> r[k] == hs[k + 1]
  {
    if |hs| == 1 then hs else hs[..index] + hs[index + 1..]
  }

  /** A user action on the list: a button click, or typing into one entry's name or level. */
  datatype HobbyAction = Add | Remove(index: nat) | Rename(index: nat, name: Option<string>) | SetLevel(index: nat, level: Option<string>)

  /**
   * A remove button, a name input and a level select exist only for an entry
   * of the list; an action on any other index changes nothing.
   */
  function Step(hs: seq<Hobby>, a: HobbyAction): (r: seq<Hobby>)
    ensures a.Add? ==> |r| == |hs| + 1
    ensures a.Remove? ==> |r| == if a.index < |hs| && |hs| > 1 then |hs| - 1 else |hs|
    ensures a.Rename? || a.SetLevel? ==> |r| == |hs|
    ensures a.Add? ==> r[..|hs|] == hs && r[|hs|] == BlankHobby
    ensures a.Remove? && a.index < |hs| && |hs| > 1 ==> r == hs[..a.index] + hs[a.index + 1..]
    ensures a.Remove? && (a.index >= |hs| || |hs| == 1) ==> r == hs
    ensures a.Rename? && a.index < |hs| ==>
      r[a.index].name == a.name && r[a.index].level == hs[a.index].level
    ensures a.SetLevel? && a.index < |hs| ==>
      r[a.index].level == a.level && r[a.index].name == hs[a.index].name
    ensures a.Rename? || a.SetLevel? ==>
      forall k :: 0 <= k < |hs| && k != a.index ==> r[k] == hs[k]
    ensures (a.Rename? || a.SetLevel?) && a.index >= |hs| ==> r == hs
  {
    match a
    case Add => PushHobby(hs)
    case Remove(index) => if index < |hs| then RemoveHobby(hs, index) else hs
    case Rename(index, name) => if index < |hs| then hs[index := hs[index].(name := name)] else hs
    case SetLevel(index, level) => if index < |hs| then hs[index := hs[index].(level := level)] else hs
  }

  /** The list after a sequence of actions; each action adds at most one entry. */
  function Run(hs: seq<Hobby>, actions: seq<HobbyAction>): (r: seq<Hobby>)
    ensures |r| <= |hs| + |actions|
    decreases |actions|
  {
    if actions == [] then hs else Run(Step(hs, actions[0]), actions[1..])
  }

  /** Any sequence of actions keeps a non-empty list non-empty. */
  lemma {:induction false} RunKeepsNonEmpty(hs: seq<Hobby>, actions: seq<HobbyAction>)
    requires |hs| >= 1
    ensures |Run(hs, actions)| >= 1
    decreases |actions|
  {
    if actions != [] {
      RunKeepsNonEmpty(Step(hs, actions[0]), actions[1..]);
    }
  }

  /** The form starts with one blank hobby, and no sequence of actions empties the list. */
  lemma HobbiesNeverEmpty(actions: seq<HobbyAction>)
    ensures InitialValues.hobbies == Some([BlankHobby])
    ensures |Run(InitialValues.hobbies.value, actions)| >= 1
  {
    RunKeepsNonEmpty(InitialValues.hobbies.value, actions);
  }
}
