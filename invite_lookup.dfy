/** supabase/functions/invite-lookup: what an invite link page learns about its token. */
module InviteLookup {
  import opened Wrappers
  import opened Http
  import opened InviteStore

  /** The reply: `{valid: false, message}` with its HTTP status, or `{valid: true, ...}`. */
  datatype LookupReply =
    | Invalid(status: int, message: string)
    | Valid(exhausted: bool, remaining: Option<int>, parentContactId: Option<string>)

  /** A chain whose `max_uses` is null or 0 has no usage limit. */
  predicate Unlimited(chain: Chain) {
    chain.maxUses.GetOr(0) == 0
  }

  /** An invite can no longer be redeemed: either row is not active, or a limited chain has no uses left. */
  predicate Exhausted(invite: Invite, chain: Chain) {
    invite.status != "active" || chain.status != "active" ||
    (!Unlimited(chain) && chain.remainingUses.GetOr(0) <= 0)
  }

  /** The invite's chain row exists, so the inner join keeps the invite. */
  predicate ChainPresent(chains: map<string, Chain>, invite: Invite) {
    ChainOf(chains, invite).Some?
  }

  /** The uses left to report: none for an unlimited chain, otherwise the chain's counter. */
  function Remaining(chain: Chain): (r: Option<int>)
    ensures Unlimited(chain) ==> r.None?
    ensures !Unlimited(chain) ==> r == chain.remainingUses
  {
    if Unlimited(chain) then None else chain.remainingUses
  }

  /**
   * The handler after its CORS preflight. The invite is found by token with an inner join on its
   * chain, so an invite without a chain row is "not found" like an unknown token.
   */
  function Lookup(invites: map<string, Invite>, chains: map<string, Chain>, request: Request<Option<string>>): (r: LookupReply)
    ensures request.Malformed? ==> r == Invalid(500, ErrorMessage(request.error, "unknown"))
    ensures request.Parsed? && !Truthy(request.body) ==> r == Invalid(400, "token gerekli")
    ensures request.Parsed? && Truthy(request.body) ==>
      var token := request.body.value;
      if token !in invites || ChainOf(chains, invites[token]).None? then r == Invalid(200, "Davet bulunamadı")
      else
        var chain := ChainOf(chains, invites[token]).value;
        r == Valid(Exhausted(invites[token], chain), Remaining(chain), invites[token].parentContactId)
  {
    match request
    case Malformed(error) => Invalid(500, ErrorMessage(error, "unknown"))
    case Parsed(token) =>
      if !Truthy(token) then Invalid(400, "token gerekli")
      else if token.value !in invites then Invalid(200, "Davet bulunamadı")
      else
        match ChainOf(chains, invites[token.value])
        case None => Invalid(200, "Davet bulunamadı")
        case Some(chain) =>
          var invite := invites[token.value];
          Valid(Exhausted(invite, chain), Remaining(chain), invite.parentContactId)
  }

  /**
   * A redeemable invite: the reply says so exactly when both rows are active and the chain is
   * unlimited or has uses left, and then the reported count is absent or positive.
   */
  lemma LookupUsable(invites: map<string, Invite>, chains: map<string, Chain>, token: string)
    requires token != "" && token in invites && ChainOf(chains, invites[token]).Some?
    ensures var r := Lookup(invites, chains, Parsed(Some(token)));
      var chain := ChainOf(chains, invites[token]).value;
      r.Valid? &&
      (!r.exhausted <==> invites[token].status == "active" && chain.status == "active" &&
                         (Unlimited(chain) || chain.remainingUses.GetOr(0) > 0)) &&
      (!r.exhausted ==> r.remaining.None? || r.remaining.value > 0)
  {
  }

  /** Whatever its counter says, an active unlimited chain never makes an active invite exhausted. */
  lemma UnlimitedNeverExhausted(invite: Invite, chain: Chain)
    requires invite.status == "active" && chain.status == "active"
    requires chain.maxUses == None || chain.maxUses == Some(0)
    ensures !Exhausted(invite, chain) && Remaining(chain) == None
  {
  }

  /** The reply depends only on the token's own invite and chain rows. */
  lemma LookupIsLocal(invites: map<string, Invite>, chains: map<string, Chain>, token: string, other: string, row: Invite)
    requires token != "" && other != token
    ensures Lookup(invites[other := row], chains, Parsed(Some(token))) == Lookup(invites, chains, Parsed(Some(token)))
  {
  }
}
