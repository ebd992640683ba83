/** The contact record of src/components/network/types.ts and the closeness colour scale the views share. */
module Contacts {
  import opened Wrappers

  /** One row of the contacts table as the client sees it. */
  datatype Contact = Contact(
    id: string,
    firstName: string,
    lastName: string,
    city: Option<string>,
    profession: Option<string>,
    relationshipDegree: int,
    services: seq<string>,
    tags: seq<string>,
    phone: Option<string>,
    email: Option<string>,
    description: Option<string>,
    parentContactId: Option<string>)

  /** The parent link as the views test it (`c.parent_contact_id ? ... : ...`): an empty id counts as none. */
  function ParentLink(c: Contact): Option<string> {
    if c.parentContactId.Some? && c.parentContactId.value != "" then c.parentContactId else None
  }

  /** The three closeness colours, from closest to farthest. */
  datatype Closeness = Green | Yellow | Red {
    function Rank(): nat {
      match this
      case Green => 2
      case Yellow => 1
      case Red => 0
    }
  }

  /** `degreeColor`: 8 and above is green, 5 to 7 yellow, below 5 red. */
  function DegreeColor(degree: int): (r: Closeness)
    ensures r == Green <==> degree >= 8
    ensures r == Yellow <==> 5 <= degree < 8
    ensures r == Red <==> degree < 5
  {
    if degree >= 8 then Green
    else if degree >= 5 then Yellow
    else Red
  }

  /** A closer relationship never gets a farther colour. */
  lemma DegreeColorMonotone(a: int, b: int)
    requires a <= b
    ensures DegreeColor(a).Rank() <= DegreeColor(b).Rank()
  {
  }
}
