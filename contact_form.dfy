/**
 * src/components/network/ContactForm.tsx: the add-contact form. Its schema decides which values
 * may be submitted; `onSubmit` turns the values into a contacts row and, after a successful save,
 * resets the form to its default degree of 5.
 */
module ContactForm {
  import opened Wrappers
  import opened Text

  /** The form's values; `None` is a field left undefined. */
  datatype FormValues = FormValues(
    firstName: string,
    lastName: string,
    city: Option<string>,
    relationshipDegree: int,
    services: Option<string>,
    tags: Option<string>,
    phone: Option<string>,
    email: Option<string>,
    description: Option<string>)

  /** The degree the form starts with and returns to after a save. */
  const DefaultDegree: int := 5

  /** `defaultValues` and `form.reset({ relationship_degree: 5 })`: everything else undefined. */
  const DefaultValues: FormValues := FormValues("", "", None, DefaultDegree, None, None, None, None, None)

  /** The schema checks that can fail. */
  datatype Problem = MissingFirstName | MissingLastName | DegreeOutOfRange | InvalidEmail

  /**
   * The schema: both names at least one character, the degree within 0 to 10, and the email either
   * absent, empty, or accepted by the email validator `isEmail`.
   */
  function Problems(v: FormValues, isEmail: string -> bool): (r: set<Problem>)
    ensures MissingFirstName in r <==> |v.firstName| < 1
    ensures MissingLastName in r <==> |v.lastName| < 1
    ensures DegreeOutOfRange in r <==> !(0 <= v.relationshipDegree <= 10)
    ensures InvalidEmail in r <==> v.email.Some? && v.email.value != "" && !isEmail(v.email.value)
  {
    (if |v.firstName| < 1 then {MissingFirstName} else {})
    + (if |v.lastName| < 1 then {MissingLastName} else {})
    + (if 0 <= v.relationshipDegree <= 10 then {} else {DegreeOutOfRange})
    + (if v.email.Some? && v.email.value != "" && !isEmail(v.email.value) then {InvalidEmail} else {})
  }

  /** The default values fail only on the two names: the default degree is on the scale. */
  lemma DefaultsNeedOnlyNames(isEmail: string -> bool)
    ensures Problems(DefaultValues, isEmail) == {MissingFirstName, MissingLastName}
  {
  }

  /** The row `onSubmit` inserts into the contacts table. */
  datatype ContactInsert = ContactInsert(
    userId: string,
    firstName: string,
    lastName: string,
    city: Option<string>,
    relationshipDegree: int,
    services: seq<string>,
    tags: seq<string>,
    phone: Option<string>,
    email: Option<string>,
    description: Option<string>,
    parentContactId: Option<string>)

  /** `text?.split(",").map(s => s.trim()).filter(Boolean) ?? []`. */
  function ListField(text: Option<string>): (r: seq<string>)
    ensures forall i :: 0 <= i < |r| ==> r[i] != "" && IsTrimmed(r[i]) && ',' !in r[i]
    ensures text.None? ==> r == []
  {
    if text.None? then [] else CommaList(text.value)
  }

  /** `values.email || null`: an empty email is stored as null. */
  function StoredEmail(email: Option<string>): (r: Option<string>)
    ensures r.None? <==> email.None? || email.value == ""
    ensures r.Some? ==> r == email
  {
    if email.Some? && email.value != "" then email else None
  }

  /** The row for the signed-in user `userId`, under the parent the form was opened for (`?? null`). */
  function ToRecord(userId: string, v: FormValues, parentContactId: Option<string>): ContactInsert {
    ContactInsert(userId, v.firstName, v.lastName, v.city, v.relationshipDegree,
      ListField(v.services), ListField(v.tags), v.phone, StoredEmail(v.email), v.description, parentContactId)
  }

  /**
   * Writing the stored services and tags back into the form, comma-joined, and saving again gives
   * the same row: the list normalisation is idempotent.
   */
  lemma ToRecordStable(userId: string, v: FormValues, parentContactId: Option<string>)
    ensures var r := ToRecord(userId, v, parentContactId);
      ToRecord(userId, v.(services := Some(Join(r.services, ',')), tags := Some(Join(r.tags, ','))), parentContactId) == r
  {
    var r := ToRecord(userId, v, parentContactId);
    CommaListOfJoin(r.services);
    CommaListOfJoin(r.tags);
  }

  /** What a submit leads to. */
  datatype Outcome = NoSession | SaveFailed(message: string) | Saved(row: ContactInsert)

  /**
   * `onSubmit`: without a signed-in user nothing is inserted; otherwise the row is inserted, and on
   * success the form goes back to its defaults while a failure keeps what was typed.
   * `user` is the session's user id, `saveError` the insert's error message, if any.
   */
  function Submit(v: FormValues, user: Option<string>, parentContactId: Option<string>, saveError: Option<string>): (r: (Outcome, FormValues))
    ensures user.None? ==> r == (NoSession, v)
    ensures user.Some? && saveError.Some? ==> r == (SaveFailed(saveError.value), v)
    ensures user.Some? && saveError.None? ==>
      r.0 == Saved(ToRecord(user.value, v, parentContactId)) && r.1 == DefaultValues && r.1.relationshipDegree == 5
  {
    if user.None? then (NoSession, v)
    else if saveError.Some? then (SaveFailed(saveError.value), v)
    else (Saved(ToRecord(user.value, v, parentContactId)), DefaultValues)
  }
}
