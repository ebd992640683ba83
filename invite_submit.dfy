/**
 * supabase/functions/invite-submit: the older submit path. It checks the invite's own use counter,
 * adds the contact for the invite's owner, counts the use and may mail a welcome with the link.
 */
module InviteSubmit {
  import opened Wrappers
  import opened Contacts
  import opened Http
  import opened InviteStore
  import InviteCreate

  datatype SubmitReply = SubmitFailed(status: int, message: string) | Submitted(contact: Contact)

  const MissingFields := "token ve contact gerekli"
  const UnknownInvite := "Geçersiz davet"
  const UsedUp := "Davet kullanım hakkı dolmuş"
  const WelcomeSubject := "Network GPT Bilgilendirme"

  /** `invite.uses >= invite.max_uses` is false: a null counter or limit compares as 0. */
  predicate Redeemable(invite: Invite) {
    invite.uses.GetOr(0) < invite.maxUses.GetOr(0)
  }

  /** The counter update after a submit: `(invite.uses ?? 0) + 1`. */
  function Redeem(invite: Invite): (r: Invite)
    ensures r.uses == Some(invite.uses.GetOr(0) + 1)
    ensures r.(uses := invite.uses) == invite
  {
    invite.(uses := Some(invite.uses.GetOr(0) + 1))
  }

  /** The row after `k` counted submits. */
  function RedeemTimes(invite: Invite, k: nat): Invite {
    if k == 0 then invite else Redeem(RedeemTimes(invite, k - 1))
  }

  /** After `k` counted submits the counter has grown by `k` and nothing else has changed. */
  lemma {:induction false} RedeemTimesCounts(invite: Invite, k: nat)
    ensures RedeemTimes(invite, k).uses.GetOr(0) == invite.uses.GetOr(0) + k
    ensures RedeemTimes(invite, k).(uses := invite.uses) == invite
  {
    if k > 0 {
      RedeemTimesCounts(invite, k - 1);
    }
  }

  /** An invite with a limit of `m` and no uses accepts exactly `m` submits. */
  lemma AdmitsExactlyMaxUses(invite: Invite, k: nat)
    requires invite.uses.GetOr(0) == 0
    ensures Redeemable(RedeemTimes(invite, k)) <==> k < invite.maxUses.GetOr(0)
  {
    RedeemTimesCounts(invite, k);
  }

  /**
   * invite-create documents a limit of 0 as "no limit", but this handler refuses every submit of
   * such an invite.
   */
  lemma CreatedUnlimitedInviteRefused(token: string, owner: string, inviterId: string)
    ensures InviteCreate.MaxUsesOf(Some(0)) == 0
    ensures !Redeemable(InviteCreate.NewInvite(token, owner, inviterId, 0))
  {
  }

  /** The contact row inserted for the invite's owner. */
  function NewContact(id: string, input: ContactInput, invite: Invite): (r: Contact)
    ensures r.id == id
    ensures r.parentContactId == Coalesce(input.parentContactId, invite.parentContactId)
    ensures r.relationshipDegree == input.relationshipDegree.GetOr(0)
    ensures input.firstName.Some? ==> r.firstName == input.firstName.value
    ensures input.lastName.Some? ==> r.lastName == input.lastName.value
    ensures r.services == ToArray(input.services) && r.tags == ToArray(input.tags)
  {
    Contact(id, input.firstName.GetOr(""), input.lastName.GetOr(""), input.city, input.profession,
            input.relationshipDegree.GetOr(0), ToArray(input.services), ToArray(input.tags),
            input.phone, input.email, input.description, Coalesce(input.parentContactId, invite.parentContactId))
  }

  /**
   * The handler after its CORS preflight. `newId` is the id the database gives the new contact,
   * `insertError` its answer to the insert and `updateOk` whether the counter update succeeded
   * (a failure there is only logged).
   */
  method Submit(db: Tables, request: Request<SubmitBody>, newId: string, insertError: Option<string>, updateOk: bool)
    returns (reply: SubmitReply, mail: Option<Mail>)
    modifies db
    ensures request.Malformed? ==> reply == SubmitFailed(500, ErrorMessage(request.error, "unknown"))
    ensures request.Parsed? && (!Truthy(request.body.token) || request.body.contact.None?) ==>
      reply == SubmitFailed(400, MissingFields)
    ensures request.Parsed? && Truthy(request.body.token) && request.body.contact.Some? ==>
      var token := request.body.token.value;
      var input := request.body.contact.value;
      (token !in old(db.invites) ==> reply == SubmitFailed(400, UnknownInvite)) &&
      (token in old(db.invites) ==>
        var invite := old(db.invites)[token];
        (!Redeemable(invite) ==> reply == SubmitFailed(400, UsedUp)) &&
        (Redeemable(invite) && insertError.Some? ==> reply == SubmitFailed(500, ErrorMessage(insertError.value, "unknown"))) &&
        (Redeemable(invite) && insertError.None? ==>
          reply == Submitted(NewContact(newId, input, invite)) &&
          db.contacts == old(db.contacts) + [StoredContact(invite.ownerUserId, NewContact(newId, input, invite))] &&
          db.invites == (if updateOk then old(db.invites)[token := Redeem(invite)] else old(db.invites)) &&
          mail == (if request.body.sendEmail && Truthy(input.email)
                   then Some(Mail(input.email.value, WelcomeSubject, InviteLink(request.body.baseUrl, token), input.firstName.GetOr("")))
                   else None)))
    ensures !reply.Submitted? ==> db.invites == old(db.invites) && db.contacts == old(db.contacts) && mail.None?
    ensures db.chains == old(db.chains)
  {
    mail := None;
    if request.Malformed? {
      return SubmitFailed(500, ErrorMessage(request.error, "unknown")), None;
    }
    var body := request.body;
    if !Truthy(body.token) || body.contact.None? {
      return SubmitFailed(400, MissingFields), None;
    }
    var token := body.token.value;
    var input := body.contact.value;
    if token !in db.invites {
      return SubmitFailed(400, UnknownInvite), None;
    }
    var invite := db.invites[token];
    if !Redeemable(invite) {
      return SubmitFailed(400, UsedUp), None;
    }
    if insertError.Some? {
      return SubmitFailed(500, ErrorMessage(insertError.value, "unknown")), None;
    }
    var inserted := NewContact(newId, input, invite);
    db.contacts := db.contacts + [StoredContact(invite.ownerUserId, inserted)];
    if updateOk {
      db.invites := db.invites[token := Redeem(invite)];
    }
    if body.sendEmail && Truthy(input.email) {
      mail := Some(Mail(input.email.value, WelcomeSubject, InviteLink(body.baseUrl, token), input.firstName.GetOr("")));
    }
    reply := Submitted(inserted);
  }
}
