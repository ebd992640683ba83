/**
 * src/components/network/AIAssistant.tsx: the assistant's search box. The query is trimmed and
 * lower-cased; a contact matches when the query occurs in the lower-cased newline-join of its first
 * name, last name, city and services.
 */
module AIAssistant {
  import opened Wrappers
  import opened Text
  import opened Seqs
  import opened Contacts
  import ContactList

  /** `[first_name || "", last_name || "", city || "", ...services]`. */
  function Fields(c: Contact): seq<string> {
    [c.firstName, c.lastName, c.city.GetOr("")] + c.services
  }

  /** The text a contact is searched in. */
  function Haystack(c: Contact): string {
    Lower(Join(Fields(c), '\n'))
  }

  predicate AssistantMatches(c: Contact, query: string) {
    Contains(Haystack(c), query)
  }

  /** The `filtered` memo: everyone for a blank query, otherwise the matching contacts in list order. */
  function AssistantSearch(contacts: seq<Contact>, q: string): (r: seq<Contact>)
    ensures AllSpace(q) ==> r == contacts
    ensures !AllSpace(q) ==>
      && IsSublist(r, contacts)
      && (forall i :: 0 <= i < |r| ==> AssistantMatches(r[i], Normalize(q)))
      && (forall i :: 0 <= i < |contacts| && AssistantMatches(contacts[i], Normalize(q)) ==> contacts[i] in r)
  {
    TrimEmptyIffBlank(q);
    var query := Normalize(q);
    if query == "" then contacts
    else
      FilterIsSublist(contacts, (c: Contact) => AssistantMatches(c, query));
      Filter(contacts, (c: Contact) => AssistantMatches(c, query))
  }

  /**
   * For a query without a line break, a contact matches exactly when the query occurs in one of its
   * lower-cased first name, last name, city or services: profession and tags are never searched.
   */
  lemma MatchesSomeField(c: Contact, query: string)
    requires query != "" && '\n' !in query
    ensures AssistantMatches(c, query) <==>
      exists i :: 0 <= i < |Fields(c)| && Contains(Lower(Fields(c)[i]), query)
  {
    LowerJoin(Fields(c), '\n');
    ContainsInJoin(LowerAll(Fields(c)), '\n', query);
  }

  /** Every field the assistant searches is also searched by the contact list. */
  lemma AssistantMatchImpliesListMatch(c: Contact, query: string)
    requires query != "" && '\n' !in query
    requires AssistantMatches(c, query)
    ensures ContactList.ListMatches(c, query)
  {
    MatchesSomeField(c, query);
    var i :| 0 <= i < |Fields(c)| && Contains(Lower(Fields(c)[i]), query);
    if i == 2 && c.city.None? {
      ContainsLonger(Lower(""), query);
    } else if i >= 3 {
      assert Fields(c)[i] == c.services[i - 3];
    }
  }

  /**
   * For a query typed already trimmed, lower-cased and on one line, the assistant finds a sublist
   * of what the contact list finds.
   */
  lemma AssistantWithinList(contacts: seq<Contact>, q: string)
    requires Normalize(q) == q && q != "" && '\n' !in q
    ensures IsSublist(AssistantSearch(contacts, q), ContactList.SearchContacts(contacts, q))
  {
    TrimEmptyIffBlank(q);
    LowerIdempotent(Trim(q));
    TrimOfTrimmed(q);
    assert Lower(q) == q;
    assert !AllSpace(q);
    forall c | AssistantMatches(c, q)
      ensures ContactList.ListMatches(c, Lower(q))
    {
      AssistantMatchImpliesListMatch(c, q);
    }
    FilterStronger(contacts, (c: Contact) => AssistantMatches(c, q), (c: Contact) => ContactList.ListMatches(c, Lower(q)));
  }
}
