/**
 * supabase/functions/invite-submit-new: the current submit path. A database procedure
 * (`accept_invite_and_add_contact`) adds the contact and spends a use of the chain; the handler
 * validates the request before it, classifies the procedure's errors, and afterwards may create
 * a follow-up invite in the same chain for the new contact and mail its link.
 */
module InviteSubmitNew {
  import opened Wrappers
  import opened Text
  import opened Http
  import opened InviteStore
  import InviteLookup

  /** The first row the procedure returns. */
  datatype RpcRow = RpcRow(contactId: Option<string>, remainingUses: Option<int>, chainStatus: Option<string>)

  /** What the procedure call gives back: an error with its message ("" when it has none), or data. */
  datatype RpcOutcome = RpcFailed(message: string) | RpcData(rows: Option<seq<RpcRow>>)  // `None`: data that is not an array

  datatype SubmitNewReply =
    | Rejected(status: int, message: string)
    | Accepted(contactId: string, remainingUses: Option<int>, chainStatus: Option<string>)

  const NotJson := "İstek JSON olmalı (application/json)"
  const BadBody := "Geçersiz JSON gövdesi"
  const MissingToken := "token gerekli"
  const MissingNames := "ad/soyad gerekli"
  const DegreeNotNumber := "relationship_degree sayısal olmalı"
  const UnexpectedShape := "Beklenmeyen dönüş yapısı"
  const DefaultRpcMessage := "İşlem gerçekleştirilemedi"
  const FollowUpSubject := "Network GPT Davetiyesi"
  const AnonymousInviter := "Bir davet eden"

  /** The `Content-Type` header, lower-cased, mentions JSON. */
  predicate AcceptsJson(contentType: Option<string>) {
    Contains(Lower(contentType.GetOr("")), "application/json")
  }

  /**
   * The checks before the procedure call, in the handler's order; `None` when all pass. A body
   * that is not JSON, or is JSON `null`, is `None`.
   */
  function Precheck(contentType: Option<string>, body: Option<SubmitBody>): (r: Option<SubmitNewReply>)
    ensures r.None? <==>
      AcceptsJson(contentType) && body.Some? && Truthy(body.value.token) && body.value.contact.Some? &&
      Truthy(body.value.contact.value.firstName) && Truthy(body.value.contact.value.lastName) &&
      body.value.contact.value.relationshipDegree.Some?
    ensures !AcceptsJson(contentType) ==> r == Some(Rejected(415, NotJson))
    ensures AcceptsJson(contentType) && body.None? ==> r == Some(Rejected(400, BadBody))
    ensures r.Some? ==> r.value.Rejected?
    ensures r.Some? && r.value.status != 415 && r.value.status != 400 ==> r.value.status == 422
  {
    if !AcceptsJson(contentType) then Some(Rejected(415, NotJson))
    else if body.None? then Some(Rejected(400, BadBody))
    else if !Truthy(body.value.token) then Some(Rejected(422, MissingToken))
    else if body.value.contact.None? || !Truthy(body.value.contact.value.firstName) || !Truthy(body.value.contact.value.lastName)
    then Some(Rejected(422, MissingNames))
    else if body.value.contact.value.relationshipDegree.None? then Some(Rejected(422, DegreeNotNumber))
    else None
  }

  /**
   * The business-rule pattern, a regular expression of literal alternatives tested without
   * regard to letter case.
   */
  predicate IsBusinessError(message: string) {
    ContainsIgnoringCase(message, "doğrulanmadı") || ContainsIgnoringCase(message, "inviter_contact_id") ||
    ContainsIgnoringCase(message, "null") || ContainsIgnoringCase(message, "zincir") ||
    ContainsIgnoringCase(message, "limit") || ContainsIgnoringCase(message, "kısıt") ||
    ContainsIgnoringCase(message, "Geçersiz") || ContainsIgnoringCase(message, "kullanım hakkı") ||
    ContainsIgnoringCase(message, "doğrulanmadı")
  }

  /** The reply to a failed procedure call: 422 for a recognised business rule, 500 otherwise. */
  function RpcErrorReply(message: string): (r: SubmitNewReply)
    ensures r.Rejected? && r.message == ErrorMessage(message, DefaultRpcMessage)
    ensures r.status == 422 <==> IsBusinessError(r.message)
    ensures r.status == 500 <==> !IsBusinessError(r.message)
  {
    var msg := ErrorMessage(message, DefaultRpcMessage);
    Rejected(if IsBusinessError(msg) then 422 else 500, msg)
  }

  /** No letter of `m` folds to `c`. */
  predicate LacksFolded(m: string, c: char) {
    forall i :: 0 <= i < |m| ==> LowerChar(m[i]) != c
  }

  /** A message in which no letter folds to o, n, z, ı, s or u, and "li" never occurs folded, names no business rule. */
  lemma NotBusinessError(m: string)
    requires LacksFolded(m, 'o') && LacksFolded(m, 'n') && LacksFolded(m, 'z')
    requires LacksFolded(m, 'ı') && LacksFolded(m, 's') && LacksFolded(m, 'u')
    requires forall i :: 0 <= i < |m| - 1 ==> !(LowerChar(m[i]) == 'l' && LowerChar(m[i + 1]) == 'i')
    ensures !IsBusinessError(m)
  {
    NoFoldedChar(m, "doğrulanmadı", 1);
    NoFoldedChar(m, "inviter_contact_id", 1);
    NoFoldedChar(m, "null", 0);
    NoFoldedChar(m, "zincir", 0);
    NoFoldedPair(m, "limit", 0);
    NoFoldedChar(m, "kısıt", 1);
    NoFoldedChar(m, "Geçersiz", 5);
    NoFoldedChar(m, "kullanım hakkı", 1);
  }

  /** The stand-in message names no business rule. */
  lemma DefaultMessageNotBusiness()
    ensures !IsBusinessError(DefaultRpcMessage)
  {
    var m := DefaultRpcMessage;
    forall i | 0 <= i < |m|
      ensures LowerChar(m[i]) == m[i] && m[i] !in "onzısu"
    {
    }
    forall i | 0 <= i < |m| - 1
      ensures !(m[i] == 'l' && m[i + 1] == 'i')
    {
    }
    NotBusinessError(m);
  }

  /** A failure without a message is reported as a server error, not as a broken business rule. */
  lemma SilentFailureIsServerError()
    ensures RpcErrorReply("") == Rejected(500, DefaultRpcMessage)
  {
    DefaultMessageNotBusiness();
  }

  /** A message that names the chain or a limit, in any letter case, is a business rule. */
  lemma ChainMessagesAreBusiness(message: string)
    requires message != ""
    requires Contains(Lower(message), "zincir") || Contains(Lower(message), "limit")
    ensures RpcErrorReply(message).status == 422
  {
    if Contains(Lower(message), "zincir") {
      FoundInLowered(message, "zincir");
    } else {
      FoundInLowered(message, "limit");
    }
  }

  /** `rpcData[0]` when the data is a non-empty array. */
  function FirstRow(rows: Option<seq<RpcRow>>): (r: Option<RpcRow>)
    ensures r.Some? <==> rows.Some? && |rows.value| > 0
    ensures r.Some? ==> r.value == rows.value[0]
  {
    if rows.Some? && |rows.value| > 0 then Some(rows.value[0]) else None
  }

  /** `x !== null && x >= 0`. */
  predicate NonNegative(x: Option<int>) {
    x.Some? && x.value >= 0
  }

  /** Whether the follow-up step runs at all: mail was asked for, there is an address and the invite row was read. */
  predicate ShouldSendEmail(body: SubmitBody, invite: Option<Invite>, row: RpcRow)
    requires body.contact.Some?
  {
    body.sendEmail && Truthy(body.contact.value.email) && invite.Some? &&
    (NonNegative(row.remainingUses) || row.chainStatus == Some("active"))
  }

  /** The chain is unlimited (`max_uses === 0`), or the call left a count that is not negative. */
  predicate CanSendFollowUp(chain: Chain, row: RpcRow) {
    chain.maxUses == Some(0) || NonNegative(row.remainingUses)
  }

  /** `[first, last].filter(Boolean).join(" ") || "Bir davet eden"`. */
  function InviterFullName(first: Option<string>, last: Option<string>): (r: string)
    ensures r != ""
    ensures !Truthy(first) && !Truthy(last) ==> r == AnonymousInviter
    ensures Truthy(first) && Truthy(last) ==> r == first.value + " " + last.value
  {
    if Truthy(first) && Truthy(last) then first.value + " " + last.value
    else if Truthy(first) then first.value
    else if Truthy(last) then last.value
    else AnonymousInviter
  }

  /** The follow-up invite: owned by the same user, in the same chain, sent by the new contact. */
  function FollowUpInvite(token: string, invite: Invite, contactId: string): (r: Invite)
    ensures r.token == token && r.ownerUserId == invite.ownerUserId && r.chainId == invite.chainId
    ensures r.inviterContactId == Some(contactId) && r.maxUses == Some(0)
  {
    Invite(token, invite.ownerUserId, None, DefaultStatus, Some(contactId), None, None, None, invite.chainId, None, Some(0))
  }

  /**
   * What the name `sendEmail` denotes at the follow-up call: the module's mail helper, or the
   * request body's `sendEmail` flag that the handler destructures into the same name.
   */
  datatype Callee = BodyFlag(flag: bool) | Mailer

  /**
   * Calling it with a mail: the helper sends the mail; a flag is not a function, so the call throws
   * a `TypeError`, which the `catch` around the follow-up step only logs.
   */
  function Call(callee: Callee, m: Mail): (r: Option<Mail>)
    ensures r.Some? <==> callee.Mailer?
    ensures r.Some? ==> r.value == m
  {
    match callee
    case Mailer => Some(m)
    case BodyFlag(_) => None
  }

  /** The follow-up step's effects: the invite row it stores and the mail it sends. */
  datatype FollowUp = FollowUp(row: Option<Invite>, mail: Option<Mail>)

  /**
   * The follow-up step once it runs, with `callee` for the name `sendEmail`: with the chain row
   * present and `CanSendFollowUp`, it stores the follow-up invite (a failed insert throws and
   * ends the step) and then calls `callee` with the mail.
   */
  function FollowUpWith(callee: Callee, invite: Invite, chain: Option<Chain>, result: RpcRow, to: string,
                        baseUrl: Option<string>, newToken: string, contactId: string, insertError: bool): (r: FollowUp)
    ensures r.row.Some? <==> chain.Some? && CanSendFollowUp(chain.value, result) && !insertError
    ensures r.row.Some? ==> r.row.value == FollowUpInvite(newToken, invite, contactId)
    ensures r.mail.Some? ==> r.row.Some? && callee.Mailer?
  {
    if chain.Some? && CanSendFollowUp(chain.value, result) && !insertError then
      var m := Mail(to, FollowUpSubject, InviteLink(baseUrl, newToken), InviterFullName(invite.inviterFirstName, invite.inviterLastName));
      FollowUp(Some(FollowUpInvite(newToken, invite, contactId)), Call(callee, m))
    else FollowUp(None, None)
  }

  /**
   * As written, `sendEmail` inside the handler is the body's flag, which is `true` whenever the
   * step runs: the follow-up invite is stored, but no mail is ever sent.
   */
  lemma FollowUpAsWrittenNeverMails(invite: Invite, chain: Option<Chain>, result: RpcRow, to: string,
                                    baseUrl: Option<string>, newToken: string, contactId: string, insertError: bool)
    ensures var asWritten := FollowUpWith(BodyFlag(true), invite, chain, result, to, baseUrl, newToken, contactId, insertError);
      var intended := FollowUpWith(Mailer, invite, chain, result, to, baseUrl, newToken, contactId, insertError);
      asWritten.mail.None? && asWritten.row == intended.row &&
      (intended.row.Some? ==> intended.mail.Some?)
  {
  }

  /** A concrete case: an unlimited chain, no insert error, and still no mail as written. */
  lemma FollowUpAsWrittenExample()
    ensures var invite := Invite("t", "owner", None, "active", None, None, None, None, Some("c"), None, Some(0));
      var r := FollowUpWith(BodyFlag(true), invite, Some(Chain(Some(0), None, "active")), RpcRow(Some("n"), None, None),
                            "x@example.com", None, "u", "n", false);
      r.row.Some? && r.mail.None?
  {
  }

  /**
   * With the mail helper called, every stored follow-up invite is mailed, to the new contact's
   * address, with the link to exactly that invite's token.
   */
  lemma FollowUpMailsItsInvite(invite: Invite, chain: Option<Chain>, result: RpcRow, to: string,
                               baseUrl: Option<string>, newToken: string, contactId: string, insertError: bool)
    ensures var r := FollowUpWith(Mailer, invite, chain, result, to, baseUrl, newToken, contactId, insertError);
      (r.mail.Some? <==> r.row.Some?) &&
      (r.mail.Some? ==> r.mail.value.to == to && r.mail.value.link == InviteLink(baseUrl, r.row.value.token))
  {
  }

  /**
   * A follow-up link shares its chain's budget: the lookup reports it exhausted exactly when the
   * chain is inactive or a limited chain has no uses left.
   */
  lemma FollowUpSharesChain(invites: map<string, Invite>, chains: map<string, Chain>, invite: Invite,
                            token: string, contactId: string)
    requires token != "" && InviteLookup.ChainPresent(chains, invite)
    ensures var chain := ChainOf(chains, invite).value;
      var r := InviteLookup.Lookup(invites[token := FollowUpInvite(token, invite, contactId)], chains, Parsed(Some(token)));
      r.Valid? && r.remaining == InviteLookup.Remaining(chain) &&
      (r.exhausted <==> chain.status != "active" || (!InviteLookup.Unlimited(chain) && chain.remainingUses.GetOr(0) <= 0))
  {
  }

  /**
   * The handler's reply, which depends only on the request and the procedure's answer: the
   * precheck's refusal, the classified procedure error, a 500 for data of an unexpected shape,
   * or the new contact's id with the chain's counters.
   */
  function Reply(contentType: Option<string>, body: Option<SubmitBody>, rpc: RpcOutcome): (r: SubmitNewReply)
    ensures Precheck(contentType, body).Some? ==> r == Precheck(contentType, body).value
    ensures Precheck(contentType, body).None? && rpc.RpcFailed? ==> r == RpcErrorReply(rpc.message)
    ensures Precheck(contentType, body).None? && rpc.RpcData? ==>
      var row := FirstRow(rpc.rows);
      (row.None? || !Truthy(row.value.contactId) ==> r == Rejected(500, UnexpectedShape)) &&
      (row.Some? && Truthy(row.value.contactId) ==>
        r == Accepted(row.value.contactId.value, row.value.remainingUses, row.value.chainStatus))
    ensures r.Accepted? <==> Precheck(contentType, body).None? && rpc.RpcData? && FirstRow(rpc.rows).Some? &&
                             Truthy(FirstRow(rpc.rows).value.contactId)
  {
    var early := Precheck(contentType, body);
    if early.Some? then early.value
    else if rpc.RpcFailed? then RpcErrorReply(rpc.message)
    else
      var result := FirstRow(rpc.rows);
      if result.None? || !Truthy(result.value.contactId) then Rejected(500, UnexpectedShape)
      else Accepted(result.value.contactId.value, result.value.remainingUses, result.value.chainStatus)
  }

  /**
   * The follow-up step is reached, the chain allows it and its invite is stored: mail was asked
   * for, the procedure's answer and the invite's chain allow it, and the insert succeeded.
   */
  predicate FollowUpStored(db: Tables, contentType: Option<string>, body: Option<SubmitBody>, rpc: RpcOutcome, followUpError: bool)
    reads db
  {
    Reply(contentType, body, rpc).Accepted? &&
    var token := body.value.token.value;
    var invite := if token in db.invites then Some(db.invites[token]) else None;
    ShouldSendEmail(body.value, invite, FirstRow(rpc.rows).value) &&
    ChainOf(db.chains, invite.value).Some? && CanSendFollowUp(ChainOf(db.chains, invite.value).value, FirstRow(rpc.rows).value) &&
    !followUpError
  }

  /** The follow-up invite a request stores when `FollowUpStored` holds. */
  function FollowUpRow(db: Tables, contentType: Option<string>, body: Option<SubmitBody>, rpc: RpcOutcome,
                       newToken: string, followUpError: bool): (r: Invite)
    reads db
    requires FollowUpStored(db, contentType, body, rpc, followUpError)
    ensures r.token == newToken && r.inviterContactId == Some(Reply(contentType, body, rpc).contactId)
    ensures r.chainId == db.invites[body.value.token.value].chainId
  {
    FollowUpInvite(newToken, db.invites[body.value.token.value], Reply(contentType, body, rpc).contactId)
  }

  /** The mail the follow-up step hands to its callee when `FollowUpStored` holds. */
  function FollowUpMail(db: Tables, contentType: Option<string>, body: Option<SubmitBody>, rpc: RpcOutcome,
                        newToken: string, followUpError: bool): (r: Mail)
    reads db
    requires FollowUpStored(db, contentType, body, rpc, followUpError)
    ensures r.to == body.value.contact.value.email.value && r.subject == FollowUpSubject
    ensures r.link == InviteLink(body.value.baseUrl, newToken)
  {
    var invite := db.invites[body.value.token.value];
    Mail(body.value.contact.value.email.value, FollowUpSubject, InviteLink(body.value.baseUrl, newToken),
         InviterFullName(invite.inviterFirstName, invite.inviterLastName))
  }

  /**
   * The handler after its CORS preflight, with `callee` for what the name `sendEmail` denotes at
   * the follow-up call. `db` holds the tables as the procedure left them, `rpc` is what the
   * procedure answered, `newToken` the generated follow-up token and `followUpError` whether
   * inserting the follow-up invite failed (that failure is only logged).
   */
  method Respond(db: Tables, contentType: Option<string>, body: Option<SubmitBody>, rpc: RpcOutcome,
                 newToken: string, followUpError: bool, callee: Callee)
    returns (reply: SubmitNewReply, mail: Option<Mail>)
    modifies db
    ensures reply == Reply(contentType, body, rpc)
    ensures db.invites == (if old(FollowUpStored(db, contentType, body, rpc, followUpError))
                           then old(db.invites)[newToken := old(FollowUpRow(db, contentType, body, rpc, newToken, followUpError))]
                           else old(db.invites))
    ensures mail.Some? <==> old(FollowUpStored(db, contentType, body, rpc, followUpError)) && callee.Mailer?
    ensures mail.Some? ==> mail.value == old(FollowUpMail(db, contentType, body, rpc, newToken, followUpError))
    ensures db.chains == old(db.chains) && db.contacts == old(db.contacts)
  {
    mail := None;
    var early := Precheck(contentType, body);
    if early.Some? {
      return early.value, None;
    }
    var token := body.value.token.value;
    var contact := body.value.contact.value;
    if rpc.RpcFailed? {
      return RpcErrorReply(rpc.message), None;
    }
    var result := FirstRow(rpc.rows);
    if result.None? || !Truthy(result.value.contactId) {
      return Rejected(500, UnexpectedShape), None;
    }
    var insertedContactId := result.value.contactId.value;
    var inviteData := if token in db.invites then Some(db.invites[token]) else None;
    if ShouldSendEmail(body.value, inviteData, result.value) {
      var invite := inviteData.value;
      var step := FollowUpWith(callee, invite, ChainOf(db.chains, invite), result.value, contact.email.value,
                               body.value.baseUrl, newToken, insertedContactId, followUpError);
      if step.row.Some? {
        db.invites := db.invites[newToken := step.row.value];
      }
      mail := step.mail;
    }
    reply := Accepted(insertedContactId, result.value.remainingUses, result.value.chainStatus);
  }

  /**
   * The handler as written: inside it the name `sendEmail` is the body's flag, so the follow-up
   * invite is stored exactly when `FollowUpStored` holds, and no mail is ever sent.
   */
  method SubmitNew(db: Tables, contentType: Option<string>, body: Option<SubmitBody>, rpc: RpcOutcome,
                   newToken: string, followUpError: bool)
    returns (reply: SubmitNewReply, mail: Option<Mail>)
    modifies db
    ensures reply == Reply(contentType, body, rpc)
    ensures db.invites == (if old(FollowUpStored(db, contentType, body, rpc, followUpError))
                           then old(db.invites)[newToken := old(FollowUpRow(db, contentType, body, rpc, newToken, followUpError))]
                           else old(db.invites))
    ensures mail.None?
    ensures db.chains == old(db.chains) && db.contacts == old(db.contacts)
  {
    var flag := body.Some? && body.value.sendEmail;
    reply, mail := Respond(db, contentType, body, rpc, newToken, followUpError, BodyFlag(flag));
  }

  /**
   * The handler with the mail helper called as intended: the follow-up invite is stored and
   * mailed to the new contact, with the link to that invite, exactly when `FollowUpStored` holds.
   */
  method SubmitNewIntended(db: Tables, contentType: Option<string>, body: Option<SubmitBody>, rpc: RpcOutcome,
                           newToken: string, followUpError: bool)
    returns (reply: SubmitNewReply, mail: Option<Mail>)
    modifies db
    ensures reply == Reply(contentType, body, rpc)
    ensures db.invites == (if old(FollowUpStored(db, contentType, body, rpc, followUpError))
                           then old(db.invites)[newToken := old(FollowUpRow(db, contentType, body, rpc, newToken, followUpError))]
                           else old(db.invites))
    ensures mail.Some? <==> old(FollowUpStored(db, contentType, body, rpc, followUpError))
    ensures mail.Some? ==> mail.value == old(FollowUpMail(db, contentType, body, rpc, newToken, followUpError))
    ensures db.chains == old(db.chains) && db.contacts == old(db.contacts)
  {
    reply, mail := Respond(db, contentType, body, rpc, newToken, followUpError, Mailer);
  }
}
