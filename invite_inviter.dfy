/**
 * supabase/functions/invite-inviter: the invited person names who sent the link; the invite
 * learns its inviter's contact id, looked up by e-mail among the owner's contacts.
 */
module InviteInviter {
  import opened Wrappers
  import opened Text
  import opened Contacts
  import opened Http
  import opened InviteStore
  import InviteLookup

  /** `{first_name?, last_name?, email}` as sent; absent fields are `None`. */
  datatype Inviter = Inviter(firstName: Option<string>, lastName: Option<string>, email: Option<string>)

  /** `{token, inviter}`; a body that is not JSON reads as `null`, i.e. `None`. */
  datatype InviterBody = InviterBody(token: Option<string>, inviter: Option<Inviter>)

  datatype InviterReply =
    | Refused(status: int, message: string)
    | Resolved(inviterContactId: string, parentContactId: string)

  /** The reply, and the new `invites` row when the handler updates one. */
  datatype InviterOutcome = InviterOutcome(reply: InviterReply, update: Option<Invite>)

  const MissingFields := "token ve davet gönderen bilgileri gerekli"
  const UnknownLink := "Geçersiz bağlantı"
  const UsedUp := "Bu davet bağlantısının kullanım hakkı dolmuş."
  const NotInNetwork := "Bu e-posta adresi ağınızda kayıtlı değil. Lütfen önce bu kişiyi ağınıza ekleyin."

  /** The body's token, when it and the inviter's e-mail are both present and non-empty. */
  predicate HasFields(body: Option<InviterBody>) {
    body.Some? && Truthy(body.value.token) && body.value.inviter.Some? && Truthy(body.value.inviter.value.email)
  }

  /** The exhaustion rule with an optional chain: an invite without a chain counts as used up. */
  predicate InviterExhausted(invite: Invite, chain: Option<Chain>) {
    chain.None? || InviteLookup.Exhausted(invite, chain.value)
  }

  /** `name?.trim() || null`. */
  function TrimOrNull(name: Option<string>): (r: Option<string>)
    ensures r.Some? ==> r.value != "" && IsTrimmed(r.value)
    ensures r.None? <==> name.None? || AllSpace(name.value)
  {
    TrimEmptyIffBlank(name.GetOr(""));
    if name.Some? && Trim(name.value) != "" then Some(Trim(name.value)) else None
  }

  /** A contact of `owner` whose e-mail equals `email` ignoring case (`.ilike` without wildcards). */
  predicate EmailMatch(row: StoredContact, owner: string, email: string) {
    row.ownerUserId == owner && row.contact.email.Some? && Lower(row.contact.email.value) == email
  }

  /** The id of the first matching contact in table order (`.limit(1)`). */
  function FirstMatch(contacts: seq<StoredContact>, owner: string, email: string): (r: Option<string>)
    ensures r.None? <==> forall i :: 0 <= i < |contacts| ==> !EmailMatch(contacts[i], owner, email)
    ensures r.Some? ==>
      exists i :: 0 <= i < |contacts| && EmailMatch(contacts[i], owner, email) &&
                  contacts[i].contact.id == r.value && forall j :: 0 <= j < i ==> !EmailMatch(contacts[j], owner, email)
  {
    if contacts == [] then None
    else if EmailMatch(contacts[0], owner, email) then
      assert EmailMatch(contacts[0], owner, email);
      Some(contacts[0].contact.id)
    else
      var r := FirstMatch(contacts[1..], owner, email);
      if r.Some? then
        var i :| 0 <= i < |contacts[1..]| && EmailMatch(contacts[1..][i], owner, email) &&
          contacts[1..][i].contact.id == r.value && forall j :: 0 <= j < i ==> !EmailMatch(contacts[1..][j], owner, email);
        assert EmailMatch(contacts[i + 1], owner, email) && forall j :: 0 <= j < i + 1 ==> !EmailMatch(contacts[j], owner, email);
        r
      else r
  }

  /** The row after the inviter is recorded: names, normalised e-mail and the contact id. */
  function Recorded(invite: Invite, id: string, inviter: Inviter): Invite {
    invite.(inviterContactId := Some(id),
            inviterFirstName := TrimOrNull(inviter.firstName),
            inviterLastName := TrimOrNull(inviter.lastName),
            inviterEmail := Some(Normalize(inviter.email.GetOr(""))))
  }

  /** The handler after its CORS preflight, for the tables as it finds them. */
  function ResolveInviter(invites: map<string, Invite>, chains: map<string, Chain>, contacts: seq<StoredContact>,
                          body: Option<InviterBody>): (r: InviterOutcome)
    ensures !HasFields(body) ==> r == InviterOutcome(Refused(422, MissingFields), None)
    ensures HasFields(body) && body.value.token.value !in invites ==> r == InviterOutcome(Refused(404, UnknownLink), None)
    ensures HasFields(body) && body.value.token.value in invites ==>
      var invite := invites[body.value.token.value];
      var found := FirstMatch(contacts, invite.ownerUserId, Normalize(body.value.inviter.value.email.value));
      (InviterExhausted(invite, ChainOf(chains, invite)) ==> r == InviterOutcome(Refused(422, UsedUp), None)) &&
      (r.reply.Resolved? ==> !InviterExhausted(invite, ChainOf(chains, invite))) &&
      (!InviterExhausted(invite, ChainOf(chains, invite)) ==>
         // a stored inviter always resolves to itself, whoever is named in the request
         (Truthy(invite.inviterContactId) ==>
            r.reply == Resolved(invite.inviterContactId.value, invite.inviterContactId.value)) &&
         // otherwise the owner's contacts decide: the first match, or a refusal when none matches
         (!Truthy(invite.inviterContactId) && found.None? ==> r == InviterOutcome(Refused(422, NotInNetwork), None)) &&
         (!Truthy(invite.inviterContactId) && found.Some? ==> r.reply == Resolved(found.value, found.value)) &&
         // the row is written only when the id was looked up or no inviter e-mail is stored yet
         (r.update.Some? <==> r.reply.Resolved? && (!Truthy(invite.inviterContactId) || !Truthy(invite.inviterEmail))))
    ensures r.update.Some? ==>
      (r.reply.Resolved? && HasFields(body) &&
       var token := body.value.token.value;
       token in invites && r.update.value == Recorded(invites[token], r.reply.inviterContactId, body.value.inviter.value))
    ensures r.reply.Refused? ==> r.update.None?
  {
    if !HasFields(body) then InviterOutcome(Refused(422, MissingFields), None)
    else
      var token := body.value.token.value;
      var inviter := body.value.inviter.value;
      if token !in invites then InviterOutcome(Refused(404, UnknownLink), None)
      else
        var invite := invites[token];
        if InviterExhausted(invite, ChainOf(chains, invite)) then InviterOutcome(Refused(422, UsedUp), None)
        else if Truthy(invite.inviterContactId) then
          var id := invite.inviterContactId.value;
          InviterOutcome(Resolved(id, id), if Truthy(invite.inviterEmail) then None else Some(Recorded(invite, id, inviter)))
        else
          match FirstMatch(contacts, invite.ownerUserId, Normalize(inviter.email.value))
          case None => InviterOutcome(Refused(422, NotInNetwork), None)
          case Some(id) => InviterOutcome(Resolved(id, id), Some(Recorded(invite, id, inviter)))
  }

  /** With its chain present, the handler refuses exactly the invites the lookup reports as exhausted. */
  lemma ExhaustedAgreesWithLookup(invites: map<string, Invite>, chains: map<string, Chain>, token: string, inviter: Inviter)
    requires token != "" && Truthy(inviter.email) && token in invites && ChainOf(chains, invites[token]).Some?
    ensures var lookup := InviteLookup.Lookup(invites, chains, Parsed(Some(token)));
      lookup.Valid? &&
      (lookup.exhausted <==> ResolveInviter(invites, chains, [], Some(InviterBody(Some(token), Some(inviter)))).reply == Refused(422, UsedUp))
  {
  }

  /** The recorded e-mail is the normalised one, so normalising it again changes nothing. */
  lemma RecordedEmailNormal(invite: Invite, id: string, inviter: Inviter)
    ensures var row := Recorded(invite, id, inviter);
      row.inviterEmail.Some? && Normalize(row.inviterEmail.value) == row.inviterEmail.value
  {
    NormalizeIdempotent(inviter.email.GetOr(""));
  }

  /**
   * Resolving the same inviter again, on the tables the first call left, gives the same contact
   * and either no update or the very row already stored.
   */
  lemma ResolveInviterIdempotent(invites: map<string, Invite>, chains: map<string, Chain>, contacts: seq<StoredContact>,
                                 body: Option<InviterBody>)
    requires ResolveInviter(invites, chains, contacts, body).update.Some?
    ensures var first := ResolveInviter(invites, chains, contacts, body);
      var token := body.value.token.value;
      var second := ResolveInviter(invites[token := first.update.value], chains, contacts, body);
      second.reply == first.reply &&
      (second.update.None? || second.update == first.update)
  {
    var first := ResolveInviter(invites, chains, contacts, body);
    var token := body.value.token.value;
    var invite := invites[token];
    var row := first.update.value;
    assert row == Recorded(invite, first.reply.inviterContactId, body.value.inviter.value);
    assert ChainOf(chains, row) == ChainOf(chains, invite);
    assert Recorded(row, first.reply.inviterContactId, body.value.inviter.value) == row;
  }

  /** The handler: answers as `ResolveInviter` does and writes the updated row back by its token. */
  method ResolveInviterIn(db: Tables, body: Option<InviterBody>) returns (reply: InviterReply)
    modifies db
    ensures var outcome := ResolveInviter(old(db.invites), old(db.chains), old(db.contacts), body);
      reply == outcome.reply &&
      db.invites == (if outcome.update.Some? then old(db.invites)[body.value.token.value := outcome.update.value] else old(db.invites))
    ensures db.chains == old(db.chains) && db.contacts == old(db.contacts)
  {
    ghost var outcome := ResolveInviter(db.invites, db.chains, db.contacts, body);
    if !HasFields(body) {
      return Refused(422, MissingFields);
    }
    var token := body.value.token.value;
    var inviter := body.value.inviter.value;
    var normalizedEmail := Normalize(inviter.email.value);
    if token !in db.invites {
      return Refused(404, UnknownLink);
    }
    var invite := db.invites[token];
    if InviterExhausted(invite, ChainOf(db.chains, invite)) {
      return Refused(422, UsedUp);
    }
    var id: string;
    if !Truthy(invite.inviterContactId) {
      var existing := FirstMatch(db.contacts, invite.ownerUserId, normalizedEmail);
      if existing.None? {
        assert outcome == InviterOutcome(Refused(422, NotInNetwork), None);
        return Refused(422, NotInNetwork);
      }
      id := existing.value;
      assert outcome == InviterOutcome(Resolved(id, id), Some(Recorded(invite, id, inviter)));
      db.invites := db.invites[token := Recorded(invite, id, inviter)];
    } else {
      id := invite.inviterContactId.value;
      assert outcome.reply == Resolved(id, id);
      if !Truthy(invite.inviterEmail) {
        assert outcome.update == Some(Recorded(invite, id, inviter));
        db.invites := db.invites[token := Recorded(invite, id, inviter)];
      } else {
        assert outcome.update == None;
      }
    }
    reply := Resolved(id, id);
  }
}
