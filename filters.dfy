/** Who sees which rows: a user's profile (the contacts it owns) and the three
    filters that narrow the client, contract and event listings to what that
    profile may see, each ordered by id, or refuse the listing outright. */
module Filters {
  import opened Results
  import opened Querysets
  import opened Auth
  import opened Models

  /** The user behind a request and the contact of each kind it owns. */
  datatype Profile = Profile(
    user: User,
    staffContact: Option<Contact>,
    salesContact: Option<Contact>,
    supportContact: Option<Contact>)
  {
    /** A superuser counts as staff even without a StaffContact. */
    predicate IsStaff() { user.isSuperuser || staffContact.Some? }
    predicate IsSales() { salesContact.Some? }
    predicate IsSupport() { supportContact.Some? }
    /** A user with none of the three roles. */
    predicate IsAnonymous() { !(IsSales() || IsStaff() || IsSupport()) }
  }

  /** `<Kind>Contact.objects.get(user=user)`, with DoesNotExist read as "no
      contact of that kind"; MultipleObjectsReturned is not caught. */
  function ContactOf(contacts: seq<Contact>, user: User): (r: Result<Option<Contact>>)
    ensures r.Ok? && r.value.Some? ==> r.value.value in contacts && r.value.value.user == user.id
    ensures (r.Ok? && r.value.None?) <==> user.id !in Keys(contacts, ContactUser)
    ensures DistinctKeys(contacts, ContactUser) ==> r.Ok?
    ensures r.Err? ==> r.error == MultipleObjectsReturned
  {
    match GetByKey(contacts, ContactUser, user.id)
    case Ok(c) => Ok(Some(c))
    case Err(e) => if e == DoesNotExist then Ok(None) else Err(e)
  }

  /** `Profile(request)`: looks up the staff, sales and support contact of the
      request's user, in that order. */
  function ResolveProfile(db: Database, user: User): (r: Result<Profile>)
    ensures r.Ok? ==> r.value.user == user
    ensures r.Ok? ==> (r.value.IsStaff() <==> user.isSuperuser || user.id in Keys(db.staffContacts, ContactUser))
    ensures r.Ok? ==> (r.value.IsSales() <==> user.id in Keys(db.salesContacts, ContactUser))
    ensures r.Ok? ==> (r.value.IsSupport() <==> user.id in Keys(db.supportContacts, ContactUser))
    ensures r.Ok? && r.value.staffContact.Some? ==>
      r.value.staffContact.value in db.staffContacts && r.value.staffContact.value.user == user.id
    ensures r.Ok? && r.value.salesContact.Some? ==>
      r.value.salesContact.value in db.salesContacts && r.value.salesContact.value.user == user.id
    ensures r.Ok? && r.value.supportContact.Some? ==>
      r.value.supportContact.value in db.supportContacts && r.value.supportContact.value.user == user.id
    ensures r.Err? ==> r.error == MultipleObjectsReturned
    ensures
      && DistinctKeys(db.staffContacts, ContactUser)
      && DistinctKeys(db.salesContacts, ContactUser)
      && DistinctKeys(db.supportContacts, ContactUser)
      ==> r.Ok?
  {
    match ContactOf(db.staffContacts, user)
    case Err(e) => Err(e)
    case Ok(staff) =>
      match ContactOf(db.salesContacts, user)
      case Err(e) => Err(e)
      case Ok(sales) =>
        match ContactOf(db.supportContacts, user)
        case Err(e) => Err(e)
        case Ok(support) => Ok(Profile(user, staff, sales, support))
  }

  /** A contact row belongs to at most one user of each kind, so a profile
      can always be built from a valid database. */
  lemma ProfileResolves(db: Database, user: User)
    requires db.Valid()
    ensures ResolveProfile(db, user).Ok?
  {
    assert db.ContactsValid(StaffRole) && db.ContactsValid(SalesRole) && db.ContactsValid(SupportRole);
  }

  // ---------------------------------------------------------------------------
  // What each profile may see, stated row by row

  /** Staff see every client; otherwise a sales contact sees the clients it
      owns, and a support contact the clients of the events assigned to it. */
  ghost predicate ClientVisible(p: Profile, db: Database, c: Client) {
    if p.IsStaff() then true
    else if p.IsSales() then c.salesContact == p.salesContact.value.id
    else if p.IsSupport() then
      exists e :: e in db.events && e.supportContact == p.supportContact.value.id && e.client == c.id
    else false
  }

  /** Staff see every contract; a sales contact sees the contracts it follows
      and those of the clients it owns. */
  ghost predicate ContractVisible(p: Profile, db: Database, k: Contract) {
    if p.IsStaff() then true
    else if p.IsSales() then
      || k.salesContact == p.salesContact.value.id
      || exists c :: c in db.clients && c.salesContact == p.salesContact.value.id && c.id == k.client
    else false
  }

  /** Staff see every event; a sales contact sees the events of the clients it
      owns or of the clients of the contracts it follows; a support contact
      sees the events assigned to it. */
  ghost predicate EventVisible(p: Profile, db: Database, e: Event) {
    if p.IsStaff() then true
    else if p.IsSales() then SalesReaches(db, p.salesContact.value.id, e.client)
    else if p.IsSupport() then e.supportContact == p.supportContact.value.id
    else false
  }

  /** Sales contact `owner` owns client `client`, or follows a contract of it. */
  ghost predicate SalesReaches(db: Database, owner: nat, client: nat) {
    || (exists c :: c in db.clients && c.salesContact == owner && c.id == client)
    || (exists k :: k in db.contracts && k.salesContact == owner && k.client == client)
  }

  // ---------------------------------------------------------------------------
  // The filters

  /** `ClientFilter.filter_queryset`: refuses a user with no role, otherwise
      returns the visible rows of `qs` ordered by id. */
  function ClientFilter(p: Profile, db: Database, qs: seq<Client>): (r: Result<seq<Client>>)
    ensures r.Err? <==> p.IsAnonymous()
    ensures r.Err? ==> r.error == PermissionDenied
    ensures r.Ok? ==> forall x :: multiset(r.value)[x] == if ClientVisible(p, db, x) then multiset(qs)[x] else 0
    ensures r.Ok? ==> SortedBy(r.value, ClientKey)
    ensures r.Ok? && DistinctKeys(qs, ClientKey) ==> StrictlyAscending(r.value, ClientKey)
  {
    if p.IsAnonymous() then Err(PermissionDenied)
    else if p.IsStaff() then Ok(FilterOrdered(qs, (c: Client) => true, ClientKey))
    else if p.IsSales() then
      var owner := p.salesContact.value.id;
      Ok(FilterOrdered(qs, (c: Client) => c.salesContact == owner, ClientKey))
    else if p.IsSupport() then
      var assignee := p.supportContact.value.id;
      var handledBy := ((e: Event) => e.supportContact == assignee);
      var clientIds := Column(Where(db.events, handledBy), (e: Event) => e.client);
      ColumnOfWhere(db.events, handledBy, (e: Event) => e.client);
      Ok(FilterOrdered(qs, (c: Client) => c.id in clientIds, ClientKey))
    else
      assert false; Ok([])
  }

  /** `ContractFilter.filter_queryset`: only staff and sales contacts may list
      contracts. */
  function ContractFilter(p: Profile, db: Database, qs: seq<Contract>): (r: Result<seq<Contract>>)
    ensures r.Err? <==> !p.IsStaff() && !p.IsSales()
    ensures r.Err? ==> r.error == PermissionDenied
    ensures r.Ok? ==> forall x :: multiset(r.value)[x] == if ContractVisible(p, db, x) then multiset(qs)[x] else 0
    ensures r.Ok? ==> SortedBy(r.value, ContractKey)
    ensures r.Ok? && DistinctKeys(qs, ContractKey) ==> StrictlyAscending(r.value, ContractKey)
  {
    if p.IsStaff() then Ok(FilterOrdered(qs, (k: Contract) => true, ContractKey))
    else if p.IsSales() then
      var owner := p.salesContact.value.id;
      var owned := ((c: Client) => c.salesContact == owner);
      var clientIds := Column(Where(db.clients, owned), ClientKey);
      ColumnOfWhere(db.clients, owned, ClientKey);
      Ok(FilterOrdered(qs, (k: Contract) => k.salesContact == owner || k.client in clientIds, ContractKey))
    else Err(PermissionDenied)
  }

  /** `EventFilter.filter_queryset`: refuses a user with no role, otherwise
      returns the visible rows of `qs` ordered by id. */
  function EventFilter(p: Profile, db: Database, qs: seq<Event>): (r: Result<seq<Event>>)
    ensures r.Err? <==> p.IsAnonymous()
    ensures r.Err? ==> r.error == PermissionDenied
    ensures r.Ok? ==> forall x :: multiset(r.value)[x] == if EventVisible(p, db, x) then multiset(qs)[x] else 0
    ensures r.Ok? ==> SortedBy(r.value, EventKey)
    ensures r.Ok? && DistinctKeys(qs, EventKey) ==> StrictlyAscending(r.value, EventKey)
  {
    if p.IsAnonymous() then Err(PermissionDenied)
    else if p.IsStaff() then Ok(FilterOrdered(qs, (e: Event) => true, EventKey))
    else if p.IsSales() then Ok(SalesEvents(db, p.salesContact.value.id, qs))
    else if p.IsSupport() then
      var assignee := p.supportContact.value.id;
      Ok(FilterOrdered(qs, (e: Event) => e.supportContact == assignee, EventKey))
    else
      assert false; Ok([])
  }

  /** The events of `qs` whose client sales contact `owner` owns or follows a
      contract of, ordered by id. */
  function SalesEvents(db: Database, owner: nat, qs: seq<Event>): (r: seq<Event>)
    ensures forall x :: multiset(r)[x] == if SalesReaches(db, owner, x.client) then multiset(qs)[x] else 0
    ensures SortedBy(r, EventKey)
    ensures DistinctKeys(qs, EventKey) ==> StrictlyAscending(r, EventKey)
  {
    var owned := ((c: Client) => c.salesContact == owner);
    var followed := ((k: Contract) => k.salesContact == owner);
    var ownedIds := Column(Where(db.clients, owned), ClientKey);
    var contractClients := Column(Where(db.contracts, followed), (k: Contract) => k.client);
    ColumnOfWhere(db.clients, owned, ClientKey);
    ColumnOfWhere(db.contracts, followed, (k: Contract) => k.client);
    var reached := ((e: Event) => e.client in ownedIds || e.client in contractClients);
    assert forall e :: reached(e) == SalesReaches(db, owner, e.client);
    FilterOrdered(qs, reached, EventKey)
  }

  // ---------------------------------------------------------------------------
  // Properties of the filters

  /** Staff, including a superuser with no StaffContact, get every row of the
      queryset from all three filters. */
  lemma StaffSeesEverything(p: Profile, db: Database, clients: seq<Client>, contracts: seq<Contract>, events: seq<Event>)
    requires p.IsStaff()
    ensures ClientFilter(p, db, clients).Ok? && multiset(ClientFilter(p, db, clients).value) == multiset(clients)
    ensures ContractFilter(p, db, contracts).Ok? && multiset(ContractFilter(p, db, contracts).value) == multiset(contracts)
    ensures EventFilter(p, db, events).Ok? && multiset(EventFilter(p, db, events).value) == multiset(events)
  {
    assert multiset(ClientFilter(p, db, clients).value) == multiset(clients);
    assert multiset(ContractFilter(p, db, contracts).value) == multiset(contracts);
    assert multiset(EventFilter(p, db, events).value) == multiset(events);
  }

  /** Every row a filter returns comes from the queryset it was given. */
  lemma FiltersNarrow(p: Profile, db: Database, clients: seq<Client>, contracts: seq<Contract>, events: seq<Event>)
    ensures ClientFilter(p, db, clients).Ok? ==> multiset(ClientFilter(p, db, clients).value) <= multiset(clients)
    ensures ContractFilter(p, db, contracts).Ok? ==> multiset(ContractFilter(p, db, contracts).value) <= multiset(contracts)
    ensures EventFilter(p, db, events).Ok? ==> multiset(EventFilter(p, db, events).value) <= multiset(events)
  {
  }

  /** Roles are tried staff first, then sales, then support: a staff profile
      sees what it would see with no other role, and a sales contact that is
      also a support contact gets the sales view. */
  lemma RolePriority(p: Profile, db: Database, clients: seq<Client>, contracts: seq<Contract>, events: seq<Event>)
    ensures p.IsStaff() ==>
      var q := p.(salesContact := None, supportContact := None);
      && ClientFilter(p, db, clients) == ClientFilter(q, db, clients)
      && ContractFilter(p, db, contracts) == ContractFilter(q, db, contracts)
      && EventFilter(p, db, events) == EventFilter(q, db, events)
    ensures !p.IsStaff() && p.IsSales() ==>
      var q := p.(supportContact := None);
      && ClientFilter(p, db, clients) == ClientFilter(q, db, clients)
      && EventFilter(p, db, events) == EventFilter(q, db, events)
  {
  }

  /** Only staff and sales contacts may list contracts; a support contact with
      no other role is refused. */
  lemma SupportCannotListContracts(p: Profile, db: Database, contracts: seq<Contract>)
    requires p.IsSupport() && !p.IsStaff() && !p.IsSales()
    ensures ContractFilter(p, db, contracts) == Err(PermissionDenied)
  {
  }
}
