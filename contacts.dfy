/**
 * The contacts store: the status normalisation table, the search and status
 * filters behind `filteredContacts`, and the in-memory cache of contacts
 * that `updateContact`, `deleteContact` and `getContactById` keep.
 */
module Contacts {
  import opened Wrappers
  import opened Js
  import opened Seqs
  import opened Text

  /** A contact as the server sends it. `status` is kept raw: the server may
      send any of the legacy spellings the table below accepts. */
  datatype Contact = Contact(
    id: int,
    name: string,
    email: string,
    phone: string,
    serialNumber: string,
    cuid: string,
    ticketNumber: string,
    status: string,
    createdAt: string,
    lastContact: Option<string>,
    interviewCount: int,
    location: string,
    notes: Option<string>)

  // ---------------------------------------------------------------------
  // Status normalisation
  // ---------------------------------------------------------------------

  /** The six status values the rest of the application works with. */
  const CanonicalStatuses: set<string> :=
    {"not_started", "round_1", "round_2", "round_3", "round_4", "completed"}

  /** The object literal `normalizeStatus` reads: eleven own keys. */
  const StatusTable: map<string, string> := map[
    "not started" := "not_started",
    "not_started" := "not_started",
    "1" := "round_1",
    "round_1" := "round_1",
    "2" := "round_2",
    "round_2" := "round_2",
    "3" := "round_3",
    "round_3" := "round_3",
    "4" := "round_4",
    "round_4" := "round_4",
    "completed" := "completed"]

  /** `statusMap[status] || 'not_started'` as JavaScript evaluates it: a key
      the literal inherits from `Object.prototype` yields that member. */
  function NormalizeStatusAsWritten(status: string): (r: Looked<string>)
    ensures status !in PrototypeKeys ==> r.Found?
  {
    LookupOr(StatusTable, status, "not_started")
  }

  /** The status a prototype member name yields is not a status at all. */
  lemma NormalizeStatusInherits()
    ensures NormalizeStatusAsWritten("constructor") == Inherited("constructor")
    ensures NormalizeStatusAsWritten("toString") == Inherited("toString")
    ensures !NormalizeStatusAsWritten("__proto__").Found?
  {
    assert "constructor" !in StatusTable;
    assert "toString" !in StatusTable;
    assert "__proto__" !in StatusTable;
  }

  /** `normalizeStatus` as intended: a total map onto the canonical values. */
  function NormalizeStatus(status: string): (r: string)
    ensures r in CanonicalStatuses
    ensures status in CanonicalStatuses ==> r == status
    ensures status == "not started" ==> r == "not_started"
    ensures status in {"1", "2", "3", "4"} ==> r == "round_" + status
    ensures status !in StatusTable ==> r == "not_started"
  {
    if status in StatusTable then StatusTable[status] else "not_started"
  }

  /** Normalising twice is normalising once. */
  lemma NormalizeStatusIdempotent(status: string)
    ensures NormalizeStatus(NormalizeStatus(status)) == NormalizeStatus(status)
  {
  }

  /** Outside the inherited member names the code as written and the intended
      table agree. */
  lemma NormalizeStatusAgrees(status: string)
    ensures status !in PrototypeKeys ==> NormalizeStatusAsWritten(status) == Found(NormalizeStatus(status))
  {
  }

  // ---------------------------------------------------------------------
  // filteredContacts
  // ---------------------------------------------------------------------

  /** The search hit: the lowercased query inside the lowercased name, serial
      number, CUID or ticket number, or inside the phone as stored. */
  predicate SearchHit(c: Contact, query: string) {
    var q := ToLower(query);
    Includes(ToLower(c.name), q)
    || Includes(c.phone, q)
    || Includes(ToLower(c.serialNumber), q)
    || Includes(ToLower(c.cuid), q)
    || Includes(ToLower(c.ticketNumber), q)
  }

  /** A status filter narrows the list unless it is null, empty or `'all'`. */
  predicate StatusFilterActive(filter: Option<string>) {
    filter.Some? && filter.value != "" && filter.value != "all"
  }

  predicate StatusHit(c: Contact, filter: Option<string>) {
    filter.Some? && NormalizeStatus(c.status) == filter.value
  }

  function SearchPred(query: string): Contact -> bool {
    (c: Contact) => SearchHit(c, query)
  }

  function StatusPred(filter: Option<string>): Contact -> bool {
    (c: Contact) => StatusHit(c, filter)
  }

  /** The contact as `filteredContacts` presents it. */
  function Normalized(c: Contact): (r: Contact)
    ensures r.status in CanonicalStatuses
    ensures r == c.(status := r.status)
  {
    c.(status := NormalizeStatus(c.status))
  }

  /** Whether a contact survives both filters, stated independently of the
      order in which the code applies them. */
  predicate Kept(c: Contact, query: string, filter: Option<string>) {
    (query == "" || SearchHit(c, query))
    && (!StatusFilterActive(filter) || NormalizeStatus(c.status) == filter.value)
  }

  function KeptPred(query: string, filter: Option<string>): Contact -> bool {
    (c: Contact) => Kept(c, query, filter)
  }

  /** The contacts `filteredContacts` keeps, before their statuses are
      normalised: the search filter when the query is non-empty, then the
      status filter when it is active. */
  function Selected(cs: seq<Contact>, query: string, filter: Option<string>): (r: seq<Contact>)
    ensures |r| <= |cs|
  {
    var searched := if query != "" then Filter(SearchPred(query), cs) else cs;
    if StatusFilterActive(filter) then Filter(StatusPred(filter), searched) else searched
  }

  /** `filteredContacts` */
  function FilteredContacts(cs: seq<Contact>, query: string, filter: Option<string>): (r: seq<Contact>)
    ensures |r| <= |cs|
  {
    Map(Normalized, Selected(cs, query, filter))
  }

  /** Applying the two filters one after the other keeps what one filter by
      `Kept` keeps. */
  lemma SelectedIsKept(cs: seq<Contact>, query: string, filter: Option<string>)
    ensures Selected(cs, query, filter) == Filter(KeptPred(query, filter), cs)
  {
    var kept := KeptPred(query, filter);
    if query != "" && StatusFilterActive(filter) {
      FilterFilter(SearchPred(query), StatusPred(filter), cs);
      FilterExt((x: Contact) => SearchPred(query)(x) && StatusPred(filter)(x), kept, cs);
    } else if query != "" {
      FilterExt(SearchPred(query), kept, cs);
    } else if StatusFilterActive(filter) {
      FilterExt(StatusPred(filter), kept, cs);
    } else {
      FilterAll(kept, cs);
    }
  }

  /** `filteredContacts` is the order-preserving selection of the contacts
      both filters keep, each with its status normalised and nothing else
      changed; an empty query and an inactive status filter keep everyone. */
  lemma FilteredContactsSpec(cs: seq<Contact>, query: string, filter: Option<string>)
    ensures FilteredContacts(cs, query, filter) == Map(Normalized, Filter(KeptPred(query, filter), cs))
    ensures SubsequenceOf(Selected(cs, query, filter), cs)
    ensures forall c :: c in Selected(cs, query, filter) <==> c in cs && Kept(c, query, filter)
    ensures query == "" && !StatusFilterActive(filter) ==> Selected(cs, query, filter) == cs
  {
    SelectedIsKept(cs, query, filter);
    FilterSubsequence(KeptPred(query, filter), cs);
    FilterMembers(KeptPred(query, filter), cs);
  }

  // ---------------------------------------------------------------------
  // Cache updates
  // ---------------------------------------------------------------------

  /** The fields a server reply carries; an absent one keeps the cached value
      when the reply is spread over the cached contact. */
  datatype ContactPatch = ContactPatch(
    id: Option<int>,
    name: Option<string>,
    email: Option<string>,
    phone: Option<string>,
    serialNumber: Option<string>,
    cuid: Option<string>,
    ticketNumber: Option<string>,
    status: Option<string>,
    createdAt: Option<string>,
    lastContact: Option<Option<string>>,
    interviewCount: Option<int>,
    location: Option<string>,
    notes: Option<Option<string>>)

  const EmptyPatch := ContactPatch(None, None, None, None, None, None, None, None, None, None, None, None, None)

  /** `{ ...c, ...p }` */
  function Merge(c: Contact, p: ContactPatch): Contact {
    Contact(
      p.id.GetOr(c.id),
      p.name.GetOr(c.name),
      p.email.GetOr(c.email),
      p.phone.GetOr(c.phone),
      p.serialNumber.GetOr(c.serialNumber),
      p.cuid.GetOr(c.cuid),
      p.ticketNumber.GetOr(c.ticketNumber),
      p.status.GetOr(c.status),
      p.createdAt.GetOr(c.createdAt),
      p.lastContact.GetOr(c.lastContact),
      p.interviewCount.GetOr(c.interviewCount),
      p.location.GetOr(c.location),
      p.notes.GetOr(c.notes))
  }

  /** Spreading a reply: an empty reply changes nothing, spreading the same
      reply twice is spreading it once, and a field the reply carries wins. */
  lemma MergeSpec(c: Contact, p: ContactPatch)
    ensures Merge(c, EmptyPatch) == c
    ensures Merge(Merge(c, p), p) == Merge(c, p)
    ensures p.id.Some? ==> Merge(c, p).id == p.id.value
    ensures p.id.None? ==> Merge(c, p).id == c.id
    ensures p.status.Some? ==> Merge(c, p).status == p.status.value
    ensures p.status.None? ==> Merge(c, p).status == c.status
  {
  }

  function HasId(id: int): Contact -> bool {
    (c: Contact) => c.id == id
  }

  /** The cache after a successful `updateContact`: the reply spread over the
      first contact with that id, if any. */
  function Updated(cs: seq<Contact>, id: int, p: ContactPatch): seq<Contact> {
    match IndexWhere(HasId(id), cs)
    case None => cs
    case Some(i) => cs[i := Merge(cs[i], p)]
  }

  /** `updateContact` keeps the length and every other entry, merges into the
      first entry with that id, and leaves a cache without it unchanged. */
  lemma UpdatedSpec(cs: seq<Contact>, id: int, p: ContactPatch)
    ensures |Updated(cs, id, p)| == |cs|
    ensures (forall i :: 0 <= i < |cs| ==> cs[i].id != id) ==> Updated(cs, id, p) == cs
    ensures forall i :: 0 <= i < |cs| && cs[i].id == id && (forall j :: 0 <= j < i ==> cs[j].id != id) ==>
      Updated(cs, id, p) == cs[i := Merge(cs[i], p)]
  {
    match IndexWhere(HasId(id), cs)
    case None =>
    case Some(k) =>
      forall i | 0 <= i < |cs| && cs[i].id == id && (forall j :: 0 <= j < i ==> cs[j].id != id)
        ensures i == k
      {
      }
  }

  /** The cache after a successful `deleteContact`. */
  function WithoutId(cs: seq<Contact>, id: int): seq<Contact> {
    Filter((c: Contact) => c.id != id, cs)
  }

  /** After a delete no contact with that id is left, every other contact is,
      and the survivors keep their order. */
  lemma WithoutIdSpec(cs: seq<Contact>, id: int)
    ensures forall c :: c in WithoutId(cs, id) <==> c in cs && c.id != id
    ensures SubsequenceOf(WithoutId(cs, id), cs)
    ensures (forall i :: 0 <= i < |cs| ==> cs[i].id != id) ==> WithoutId(cs, id) == cs
  {
    FilterMembers((c: Contact) => c.id != id, cs);
    FilterSubsequence((c: Contact) => c.id != id, cs);
    if forall i :: 0 <= i < |cs| ==> cs[i].id != id {
      NoIdFilterAll(cs, id);
    }
  }

  lemma {:induction false} NoIdFilterAll(cs: seq<Contact>, id: int)
    requires forall i :: 0 <= i < |cs| ==> cs[i].id != id
    ensures WithoutId(cs, id) == cs
  {
    if cs != [] {
      NoIdFilterAll(cs[1..], id);
      assert cs == [cs[0]] + cs[1..];
    }
  }

  /** The `id` argument of `getContactById` as JavaScript may pass it. */
  datatype IdArg = IdUndefined | IdNull | IdNaN | IdNumber(n: int)

  /** The contacts store. `error` records only whether an error message is set. */
  class ContactsStore {
    var contacts: seq<Contact>
    var searchQuery: string
    var statusFilter: Option<string>
    var error: bool

    constructor ()
      ensures contacts == [] && searchQuery == "" && statusFilter == None && !error
    {
      contacts := [];
      searchQuery := "";
      statusFilter := None;
      error := false;
    }

    /** `filteredContacts` */
    function Filtered(): (r: seq<Contact>)
      reads this
      ensures |r| <= |contacts|
      ensures forall i :: 0 <= i < |r| ==> r[i].status in CanonicalStatuses
    {
      FilteredContacts(contacts, searchQuery, statusFilter)
    }

    /** `updateContact`: after the patch succeeds, the reply is spread over the
        first cached contact with that id. */
    method UpdateContact(id: int, reply: Reply<ContactPatch>) returns (threw: bool)
      modifies this
      ensures searchQuery == old(searchQuery) && statusFilter == old(statusFilter)
      ensures threw <==> reply.Failed?
      ensures error == threw
      ensures reply.Failed? ==> contacts == old(contacts)
      ensures reply.Ok? ==> contacts == Updated(old(contacts), id, reply.payload)
    {
      error := false;
      if reply.Failed? {
        error := true;
        return true;
      }
      var index := IndexWhere(HasId(id), contacts);
      if index.Some? {
        contacts := contacts[index.value := Merge(contacts[index.value], reply.payload)];
      }
      return false;
    }

    /** `deleteContact`: after the delete succeeds, every contact with that id
        leaves the cache. */
    method DeleteContact(id: int, ok: bool) returns (threw: bool)
      modifies this
      ensures searchQuery == old(searchQuery) && statusFilter == old(statusFilter)
      ensures threw <==> !ok
      ensures error == threw
      ensures !ok ==> contacts == old(contacts)
      ensures ok ==> contacts == WithoutId(old(contacts), id)
    {
      error := false;
      if !ok {
        error := true;
        return true;
      }
      contacts := WithoutId(contacts, id);
      return false;
    }

    /** `getContactById`: reject a missing or non-numeric id before any
        request, answer from the cache when it can, and otherwise fetch and
        append the contact unless one with that id is cached by then.
        `requested` says whether the request was made at all. */
    method GetContactById(id: IdArg, reply: Reply<Contact>) returns (threw: bool, result: Option<Contact>, requested: bool)
      modifies this
      ensures searchQuery == old(searchQuery) && statusFilter == old(statusFilter)
      ensures !id.IdNumber? ==>
        threw && !requested && result.None? && error && contacts == old(contacts)
      ensures id.IdNumber? && IndexWhere(HasId(id.n), old(contacts)).Some? ==>
        !threw && !requested && contacts == old(contacts) && error == old(error)
        && result == Some(old(contacts)[IndexWhere(HasId(id.n), old(contacts)).value])
      ensures id.IdNumber? && IndexWhere(HasId(id.n), old(contacts)).None? ==>
        requested && (threw <==> reply.Failed?) && error == threw
        && (reply.Failed? ==> result.None? && contacts == old(contacts))
        && (reply.Ok? ==> result == Some(reply.payload) && contacts == old(contacts) + [reply.payload])
    {
      if !id.IdNumber? {
        error := true;
        return true, None, false;
      }
      var contactId := id.n;
      var existing := IndexWhere(HasId(contactId), contacts);
      if existing.Some? {
        return false, Some(contacts[existing.value]), false;
      }
      error := false;
      if reply.Failed? {
        error := true;
        return true, None, true;
      }
      var index := IndexWhere(HasId(contactId), contacts);
      if index.None? {
        contacts := contacts + [reply.payload];
      }
      return false, Some(reply.payload), true;
    }
  }

  /** A contact served from the cache carries the requested id and is the
      first cached contact that does. */
  lemma CachedLookup(cs: seq<Contact>, id: int)
    requires IndexWhere(HasId(id), cs).Some?
    ensures var c := cs[IndexWhere(HasId(id), cs).value];
      c.id == id && c in cs
      && forall j :: 0 <= j < IndexWhere(HasId(id), cs).value ==> cs[j].id != id
  {
    var k := IndexWhere(HasId(id), cs).value;
    assert HasId(id)(cs[k]);
    forall j | 0 <= j < k
      ensures cs[j].id != id
    {
      assert !HasId(id)(cs[j]);
    }
  }
}
