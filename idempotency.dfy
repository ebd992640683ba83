/**
 * The duplicate-request guard of supabase/functions/send-invite and send-invite-smtp: a map from
 * request key to the time it was last let through. Old entries are swept out on every request, and
 * a key seen less than a minute ago is answered as a duplicate without sending. Clock readings are
 * parameters, in milliseconds.
 */
module Idempotency {
  import opened Wrappers

  /** `IDEMPOTENCY_WINDOW`: 60 seconds. */
  const Window := 60 * 1000

  /** The entries the sweep keeps: those no more than a window old at `now`. */
  function Fresh(stamps: map<string, int>, now: int): (r: map<string, int>)
    ensures r.Keys <= stamps.Keys
    ensures forall k :: k in stamps ==> (k in r <==> now - stamps[k] <= Window)
    ensures forall k :: k in r ==> r[k] == stamps[k]
  {
    map k | k in stamps && now - stamps[k] <= Window :: stamps[k]
  }

  /** The answer to one request and the map afterwards. */
  datatype Admission = Admission(duplicateOf: Option<int>, stamps: map<string, int>)

  /** The guard for one request: sweep, then answer a recent key as a duplicate, else stamp it. */
  function AdmitSpec(stamps: map<string, int>, key: string, now: int): (r: Admission)
    ensures r.duplicateOf.Some? ==> r.stamps == Fresh(stamps, now)
    ensures r.duplicateOf.None? ==> r.stamps == Fresh(stamps, now)[key := now]
  {
    var kept := Fresh(stamps, now);
    if key in kept && now - kept[key] < Window then Admission(Some(kept[key]), kept)
    else Admission(None, kept[key := now])
  }

  /**
   * The sweep never changes the answer: a request is a duplicate exactly when its key was stamped
   * less than a window before, and it then reports that stamp.
   */
  lemma DuplicateIff(stamps: map<string, int>, key: string, now: int)
    ensures AdmitSpec(stamps, key, now).duplicateOf.Some? <==> key in stamps && now - stamps[key] < Window
    ensures AdmitSpec(stamps, key, now).duplicateOf.Some? ==> AdmitSpec(stamps, key, now).duplicateOf.value == stamps[key]
  {
  }

  /**
   * The stamp is set before the send, so once a request is let through, the same key is refused
   * for the rest of the window, whatever the send did.
   */
  lemma RepeatWithinWindowIsDuplicate(stamps: map<string, int>, key: string, first: int, second: int)
    requires AdmitSpec(stamps, key, first).duplicateOf.None?
    requires first <= second < first + Window
    ensures AdmitSpec(AdmitSpec(stamps, key, first).stamps, key, second).duplicateOf == Some(first)
  {
  }

  /** A full window after it was let through, the same key is let through again. */
  lemma RepeatAfterWindowAdmitted(stamps: map<string, int>, key: string, first: int, second: int)
    requires AdmitSpec(stamps, key, first).duplicateOf.None?
    requires second >= first + Window
    ensures AdmitSpec(AdmitSpec(stamps, key, first).stamps, key, second).duplicateOf.None?
  {
  }

  /** A request only sweeps other keys; it never stamps or revives them. */
  lemma OtherKeysOnlySwept(stamps: map<string, int>, key: string, now: int, other: string)
    requires other != key
    ensures var after := AdmitSpec(stamps, key, now).stamps;
      (other in after <==> other in stamps && now - stamps[other] <= Window) &&
      (other in after ==> after[other] == stamps[other])
  {
  }

  /** The module-level `recentRequests` map of one function instance. */
  class RecentRequests {
    var stamps: map<string, int>

    constructor ()
      ensures stamps == map[]
    {
      stamps := map[];
    }

    /** `cleanupOldRequests`: delete every entry more than a window old, one key at a time. */
    method Cleanup(now: int)
      modifies this
      ensures stamps == Fresh(old(stamps), now)
    {
      var keys := stamps.Keys;
      while keys != {}
        invariant keys <= old(stamps).Keys
        invariant stamps.Keys <= old(stamps).Keys
        invariant forall k :: k in old(stamps) ==> (k in stamps <==> k in keys || now - old(stamps)[k] <= Window)
        invariant forall k :: k in stamps ==> stamps[k] == old(stamps)[k]
        decreases keys
      {
        var k :| k in keys;
        if now - stamps[k] > Window {
          stamps := stamps - {k};
        }
        keys := keys - {k};
      }
    }

    /**
     * The guard as the handlers run it: sweep, answer a recent key as a duplicate with its stamp,
     * otherwise stamp the key with `now` and let the request through.
     */
    method Admit(key: string, now: int) returns (duplicateOf: Option<int>)
      modifies this
      ensures Admission(duplicateOf, stamps) == AdmitSpec(old(stamps), key, now)
    {
      Cleanup(now);
      if key in stamps {
        var lastRequest := stamps[key];
        if now - lastRequest < Window {
          return Some(lastRequest);
        }
      }
      stamps := stamps[key := now];
      duplicateOf := None;
    }
  }
}
