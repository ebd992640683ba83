/** supabase/functions/invite-create: a contact of the network creates a new invite link. */
module InviteCreate {
  import opened Wrappers
  import opened Http
  import opened InviteStore
  import InviteLookup
  import InviteInviter

  /** `{inviter_contact_id, max_uses?}`; `maxUses` is `None` unless it is a finite number. */
  datatype CreateBody = CreateBody(inviterContactId: Option<string>, maxUses: Option<int>)

  datatype CreateReply = CreateFailed(status: int, message: string) | Created(token: string, maxUses: int)

  const NotInNetwork := "Daveti gönderen kişi ağda bulunmuyor"

  /** `Number.isFinite(max_uses) && max_uses >= 0 ? max_uses : 0`: 0 stands for "no limit". */
  function MaxUsesOf(maxUses: Option<int>): (r: nat)
    ensures maxUses.Some? && maxUses.value >= 0 ==> r == maxUses.value
    ensures maxUses.None? || maxUses.value < 0 ==> r == 0
  {
    if maxUses.Some? && maxUses.value >= 0 then maxUses.value else 0
  }

  /** Normalising a limit that is already normal changes nothing. */
  lemma MaxUsesOfStable(maxUses: Option<int>)
    ensures MaxUsesOf(Some(MaxUsesOf(maxUses))) == MaxUsesOf(maxUses)
  {
  }

  /** The inserted row: the columns the insert names, the others at their defaults. */
  function NewInvite(token: string, owner: string, inviterContactId: string, maxUses: nat): (r: Invite)
    ensures r.token == token && r.status == DefaultStatus && r.maxUses == Some(maxUses)
  {
    Invite(token, owner, None, DefaultStatus, Some(inviterContactId), None, None, None, None, None, Some(maxUses))
  }

  /**
   * The handler after its CORS preflight. `token` is the freshly generated UUID and
   * `insertError` the database's answer to the insert.
   */
  method CreateInvite(db: Tables, request: Request<CreateBody>, token: string, insertError: Option<string>)
    returns (reply: CreateReply)
    modifies db
    ensures request.Malformed? ==> reply == CreateFailed(500, ErrorMessage(request.error, "unknown"))
    ensures request.Parsed? && !Truthy(request.body.inviterContactId) ==> reply == CreateFailed(400, NotInNetwork)
    ensures request.Parsed? && Truthy(request.body.inviterContactId) ==>
      var inviter := FindContact(old(db.contacts), request.body.inviterContactId.value);
      (inviter.None? ==> reply == CreateFailed(400, NotInNetwork)) &&
      (inviter.Some? && insertError.Some? ==> reply == CreateFailed(500, ErrorMessage(insertError.value, "unknown"))) &&
      (inviter.Some? && insertError.None? ==>
         reply == Created(token, MaxUsesOf(request.body.maxUses)) &&
         db.invites == old(db.invites)[token := NewInvite(token, inviter.value.ownerUserId, request.body.inviterContactId.value,
                                                           MaxUsesOf(request.body.maxUses))])
    ensures !reply.Created? ==> db.invites == old(db.invites)
    ensures db.chains == old(db.chains) && db.contacts == old(db.contacts)
  {
    if request.Malformed? {
      return CreateFailed(500, ErrorMessage(request.error, "unknown"));
    }
    var body := request.body;
    if !Truthy(body.inviterContactId) {
      return CreateFailed(400, NotInNetwork);
    }
    var inviter := FindContact(db.contacts, body.inviterContactId.value);
    if inviter.None? {
      return CreateFailed(400, NotInNetwork);
    }
    var m := MaxUsesOf(body.maxUses);
    if insertError.Some? {
      return CreateFailed(500, ErrorMessage(insertError.value, "unknown"));
    }
    db.invites := db.invites[token := NewInvite(token, inviter.value.ownerUserId, body.inviterContactId.value, m)];
    reply := Created(token, m);
  }

  /**
   * The insert leaves `chain_id` null, so unless the database fills it in, the link of a created
   * invite is "not found" for the lookup and "used up" for the inviter step.
   */
  lemma CreatedInviteHasNoChain(invites: map<string, Invite>, chains: map<string, Chain>, contacts: seq<StoredContact>,
                                token: string, owner: string, inviterId: string, maxUses: nat, inviter: InviteInviter.Inviter)
    requires token != "" && Truthy(inviter.email)
    ensures var tables := invites[token := NewInvite(token, owner, inviterId, maxUses)];
      InviteLookup.Lookup(tables, chains, Parsed(Some(token))) == InviteLookup.Invalid(200, "Davet bulunamadı") &&
      InviteInviter.ResolveInviter(tables, chains, contacts, Some(InviteInviter.InviterBody(Some(token), Some(inviter)))).reply
        == InviteInviter.Refused(422, InviteInviter.UsedUp)
  {
  }
}
