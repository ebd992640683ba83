/**
 * The database tables the invite handlers under supabase/functions read and write, and the small
 * rules more than one handler shares.
 */
module InviteStore {
  import opened Wrappers
  import opened Text
  import opened Contacts
  import opened Http

  /** A row of `invite_chains`: the shared usage budget of a chain of invites. */
  datatype Chain = Chain(maxUses: Option<int>, remainingUses: Option<int>, status: string)

  /** A row of `invites`; `None` is a null column. */
  datatype Invite = Invite(
    token: string,
    ownerUserId: string,
    parentContactId: Option<string>,
    status: string,
    inviterContactId: Option<string>,
    inviterFirstName: Option<string>,
    inviterLastName: Option<string>,
    inviterEmail: Option<string>,
    chainId: Option<string>,
    uses: Option<int>,
    maxUses: Option<int>)

  /** A row of `contacts` together with the user who owns it. */
  datatype StoredContact = StoredContact(ownerUserId: string, contact: Contact)

  /** The value the `status` column takes when an insert leaves it out. */
  const DefaultStatus: string := "active"

  /** The tables: invites by token, chains by id, and the contacts in table order. */
  class Tables {
    var invites: map<string, Invite>
    var chains: map<string, Chain>
    var contacts: seq<StoredContact>

    constructor (invites: map<string, Invite>, chains: map<string, Chain>, contacts: seq<StoredContact>)
      ensures this.invites == invites && this.chains == chains && this.contacts == contacts
    {
      this.invites := invites;
      this.chains := chains;
      this.contacts := contacts;
    }
  }

  /** The `invite_chains` relation of an invite: the chain its `chain_id` names, if that row exists. */
  function ChainOf(chains: map<string, Chain>, invite: Invite): (r: Option<Chain>)
    ensures r.Some? <==> invite.chainId.Some? && invite.chainId.value in chains
  {
    if invite.chainId.Some? && invite.chainId.value in chains then Some(chains[invite.chainId.value]) else None
  }

  /** A `string[] | string | null` request field. */
  datatype ListArg = Items(items: seq<string>) | Text(text: string) | Missing

  /**
   * `toArray`: an array is kept as it is; a string (or null, read as "") becomes its comma
   * separated pieces, trimmed, without empty ones.
   */
  function ToArray(v: ListArg): (r: seq<string>)
    ensures v.Items? ==> r == v.items
    ensures v.Missing? ==> r == []
    ensures v.Text? ==> forall i :: 0 <= i < |r| ==> r[i] != "" && IsTrimmed(r[i]) && ',' !in r[i]
  {
    match v
    case Items(items) => items
    case Text(text) => CommaList(text)
    case Missing => []  // "".split(",") is [""], which the filter empties
  }

  /** A missing field is read as the empty string. */
  lemma ToArrayMissingIsEmptyText()
    ensures ToArray(Missing) == ToArray(Text(""))
  {
    CommaListOfJoin([]);
  }

  /** Clean items sent as one comma-joined string come back as the same list. */
  lemma ToArrayOfJoined(items: seq<string>)
    requires forall i :: 0 <= i < |items| ==> items[i] != "" && IsTrimmed(items[i]) && ',' !in items[i]
    ensures ToArray(Text(Join(items, ','))) == ToArray(Items(items))
  {
    CommaListOfJoin(items);
  }

  /** The `contact` object of a submitted invite form; `None` is an absent or null field. */
  datatype ContactInput = ContactInput(
    firstName: Option<string>,
    lastName: Option<string>,
    city: Option<string>,
    profession: Option<string>,
    relationshipDegree: Option<int>,  // `None` unless it is a number
    services: ListArg,
    tags: ListArg,
    phone: Option<string>,
    email: Option<string>,
    description: Option<string>,
    parentContactId: Option<string>)

  /** `{token, contact, sendEmail?, base_url?}` as both submit handlers read it. */
  datatype SubmitBody = SubmitBody(token: Option<string>, contact: Option<ContactInput>, sendEmail: bool, baseUrl: Option<string>)

  /** A message handed to the mail service: recipient, subject, the link it carries and the name it mentions. */
  datatype Mail = Mail(to: string, subject: string, link: string, mention: string)

  /** `a ?? b`: only an absent value falls through; an empty string is kept. */
  function Coalesce<T>(a: Option<T>, b: Option<T>): (r: Option<T>)
    ensures a.Some? ==> r == a
    ensures a.None? ==> r == b
  {
    if a.Some? then a else b
  }

  /** `${(base_url || "").replace(/\/$/, "")}/invite/${token}`. */
  function InviteLink(baseUrl: Option<string>, token: string): string {
    DropTrailingSlash(baseUrl.GetOr("")) + "/invite/" + token
  }

  /** A base URL with or without one trailing slash gives the same link. */
  lemma InviteLinkIgnoresTrailingSlash(base: string, token: string)
    requires base == [] || base[|base| - 1] != '/'
    ensures InviteLink(Some(base + "/"), token) == InviteLink(Some(base), token) == base + "/invite/" + token
  {
  }

  /** The first contact row with the given id (`.eq("id", id).maybeSingle()`). */
  function FindContact(contacts: seq<StoredContact>, id: string): (r: Option<StoredContact>)
    ensures r.Some? ==> r.value in contacts && r.value.contact.id == id
    ensures r.None? <==> forall i :: 0 <= i < |contacts| ==> contacts[i].contact.id != id
  {
    if contacts == [] then None
    else if contacts[0].contact.id == id then Some(contacts[0])
    else FindContact(contacts[1..], id)
  }
}
