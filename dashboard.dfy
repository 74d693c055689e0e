/**
 * The user dashboard shown after a successful registration: four display
 * strings projected from the submitted form entries.
 */
module Dashboard {
  import opened Wrappers

  /** The four paragraphs of the dashboard, in page order. */
  datatype View = View(username: string, email: string, age: string, contact: string)

  /** A form entry inside a template literal: a missing entry (`null`) prints as "null". */
  function Interpolate(entry: Option<string>): string
  {
    match entry
    case None => "null"
    case Some(s) => s
  }

  /**
   * `updateUserDashboard`: username and email as submitted, the age or
   * "Not specified" when it is empty or missing, and "Email" for the contact
   * value "email" and "Phone" for anything else, a missing choice included.
   */
  function Project(username: Option<string>, email: Option<string>, age: Option<string>, contact: Option<string>): View
  {
    View(
      Interpolate(username),
      Interpolate(email),
      if age.None? || age.value == "" then "Not specified" else age.value,
      if contact == Some("email") then "Email" else "Phone")
  }

  /** What each paragraph of the dashboard shows, in terms of the submitted entries. */
  lemma ProjectMeaning(username: Option<string>, email: Option<string>, age: Option<string>, contact: Option<string>)
    ensures var v := Project(username, email, age, contact);
            && (username.Some? ==> v.username == username.value)
            && (username.None? ==> v.username == "null")
            && (email.Some? ==> v.email == email.value)
            && (email.None? ==> v.email == "null")
            && (age.Some? && age.value != "" ==> v.age == age.value)
            && (age.None? || age == Some("") ==> v.age == "Not specified")
            && (v.contact == "Email" <==> contact == Some("email"))
            && (v.contact == "Email" || v.contact == "Phone")
  {
  }

  /** An age paragraph reading "Not specified" comes from an empty or missing age, or from that very text typed in. */
  lemma AgeFallback(age: Option<string>)
    ensures Project(None, None, age, None).age == "Not specified" <==>
              age.None? || age == Some("") || age == Some("Not specified")
  {
  }
}
