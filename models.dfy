/** The CRM's entities with the bounds their fields carry, the event-status
    enumeration, the string forms of each entity, the database as a value, and
    the one state change the models themselves define: saving a contact puts
    its user into the group of its role. */
module Models {
  import opened Results
  import opened Querysets
  import opened Text
  import opened Auth

  /** The three kinds of contact, each with its own table and group. */
  datatype Role = SalesRole | StaffRole | SupportRole

  /** The group a contact's user joins when the contact is saved. */
  function GroupOf(role: Role): (g: string)
    ensures g in GroupPermissions
    ensures role == SalesRole ==> g == "SALES"
    ensures role == StaffRole ==> g == "STAFF"
    ensures role == SupportRole ==> g == "SUPPORT"
  {
    match role
    case SalesRole => "SALES"
    case StaffRole => "STAFF"
    case SupportRole => "SUPPORT"
  }

  /** A SalesContact, StaffContact or SupportContact row: a one-to-one link to a user. */
  datatype Contact = Contact(id: nat, user: nat)

  datatype Client = Client(
    id: nat,
    firstName: string,
    lastName: string,
    email: string,
    phone: string,
    mobile: string,
    salesContact: nat)
  {
    /** Lengths allowed by the columns; names and e-mail may not be blank. */
    predicate WithinBounds() {
      && 0 < |firstName| <= 25 && 0 < |lastName| <= 25
      && 0 < |email| <= 100
      && |phone| <= 20 && |mobile| <= 20
    }
  }

  /** An instant; its renderings as text are supplied where they are needed. */
  datatype Timestamp = Timestamp(epoch: int)

  /** Amounts are whole hundredths: nine digits, two of them decimals. */
  const AmountLimit: int := 1_000_000_000

  datatype Contract = Contract(
    id: nat,
    salesContact: nat,
    client: nat,
    status: bool,
    amount: int,
    paymentDue: Timestamp)
  {
    predicate WithinBounds() {
      -AmountLimit < amount < AmountLimit
    }
  }

  /** The choices of `EventStatus.status`: a one-letter code and its label. */
  datatype StatusCode = Created | Ended | InProgress {
    function Code(): string {
      match this
      case Created => "C"
      case Ended => "E"
      case InProgress => "P"
    }

    function Label(): string {
      match this
      case Created => "CREATED"
      case Ended => "ENDED"
      case InProgress => "IN PROGRESS"
    }
  }

  /** The choice whose code is `code`, if any. */
  function StatusFromCode(code: string): (r: Option<StatusCode>)
    ensures r.Some? ==> r.value.Code() == code
    ensures r.None? ==> forall c: StatusCode :: c.Code() != code
  {
    if code == "C" then Some(Created)
    else if code == "E" then Some(Ended)
    else if code == "P" then Some(InProgress)
    else None
  }

  /** Every code reads back as the choice it came from, so codes are distinct. */
  lemma StatusCodeRoundTrip(c: StatusCode)
    ensures StatusFromCode(c.Code()) == Some(c)
  {
  }

  /** An EventStatus row stores the code in a one-character column. The
      choices are enforced by form validation only, so a row saved directly
      may hold any such string, which `StatusDisplay` shows as stored. */
  datatype EventStatus = EventStatus(id: nat, status: string) {
    predicate WithinBounds() {
      |status| <= 1
    }
  }

  /** `get_status_display()`: the label of a known code, the stored text otherwise. */
  function StatusDisplay(stored: string): (r: string)
    ensures StatusFromCode(stored).Some? ==> r == StatusFromCode(stored).value.Label()
    ensures StatusFromCode(stored).None? ==> r == stored
  {
    match StatusFromCode(stored)
    case Some(c) => c.Label()
    case None => stored
  }

  datatype Event = Event(
    id: nat,
    client: nat,
    supportContact: nat,
    eventStatus: nat,
    attendees: int,
    eventDate: Timestamp,
    notes: string)
  {
    predicate WithinBounds() {
      |notes| <= 2048
    }
  }

  // Primary keys and other columns, as functions for the generic query helpers.
  function UserKey(u: User): int { u.id }
  function UsernameOf(u: User): string { u.username }
  function ContactKey(c: Contact): int { c.id }
  function ContactUser(c: Contact): int { c.user }
  function ClientKey(c: Client): int { c.id }
  function EmailOf(c: Client): string { c.email }
  function ContractKey(k: Contract): int { k.id }
  function EventStatusKey(s: EventStatus): int { s.id }
  function EventKey(e: Event): int { e.id }

  /** Every table the core reads or writes. */
  datatype Database = Database(
    users: seq<User>,
    groups: set<string>,
    salesContacts: seq<Contact>,
    staffContacts: seq<Contact>,
    supportContacts: seq<Contact>,
    clients: seq<Client>,
    contracts: seq<Contract>,
    eventStatuses: seq<EventStatus>,
    events: seq<Event>)
  {
    function Contacts(role: Role): seq<Contact> {
      match role
      case SalesRole => salesContacts
      case StaffRole => staffContacts
      case SupportRole => supportContacts
    }

    function WithContacts(role: Role, s: seq<Contact>): (d: Database)
      ensures d.Contacts(role) == s
      ensures d.users == users && d.groups == groups
      ensures forall other: Role :: other != role ==> d.Contacts(other) == Contacts(other)
    {
      match role
      case SalesRole => this.(salesContacts := s)
      case StaffRole => this.(staffContacts := s)
      case SupportRole => this.(supportContacts := s)
    }

    /** A contact table: distinct keys, one contact per user, every user stored. */
    ghost predicate ContactsValid(role: Role) {
      var s := Contacts(role);
      && DistinctKeys(s, ContactKey)
      && DistinctKeys(s, ContactUser)
      && forall c :: c in s ==> c.user in Keys(users, UserKey)
    }

    ghost predicate UsersValid() {
      DistinctKeys(users, UserKey) && DistinctKeys(users, UsernameOf)
    }

    ghost predicate ClientsValid() {
      && DistinctKeys(clients, ClientKey) && DistinctKeys(clients, EmailOf)
      && forall c :: c in clients ==> c.WithinBounds() && c.salesContact in Keys(salesContacts, ContactKey)
    }

    ghost predicate ContractsValid() {
      && DistinctKeys(contracts, ContractKey)
      && forall k :: k in contracts ==>
           && k.WithinBounds()
           && k.salesContact in Keys(salesContacts, ContactKey)
           && k.client in Keys(clients, ClientKey)
    }

    ghost predicate EventsValid() {
      && DistinctKeys(eventStatuses, EventStatusKey)
      && (forall s :: s in eventStatuses ==> s.WithinBounds())
      && DistinctKeys(events, EventKey)
      && forall e :: e in events ==>
           && e.WithinBounds()
           && e.client in Keys(clients, ClientKey)
           && e.supportContact in Keys(supportContacts, ContactKey)
           && e.eventStatus in Keys(eventStatuses, EventStatusKey)
    }

    /** What the schema guarantees: primary keys, unique usernames and
        e-mails, one-to-one contacts, column bounds and resolvable foreign keys. */
    ghost predicate Valid() {
      && UsersValid()
      && ContactsValid(SalesRole) && ContactsValid(StaffRole) && ContactsValid(SupportRole)
      && ClientsValid() && ContractsValid() && EventsValid()
    }
  }

  // ---------------------------------------------------------------------------
  // String forms

  /** `str(client)`: first name, one space, last name. */
  function ClientToString(c: Client): (r: string)
    ensures |r| == |c.firstName| + 1 + |c.lastName|
    ensures r[..|c.firstName|] == c.firstName && r[|c.firstName|] == ' ' && r[|c.firstName| + 1..] == c.lastName
  {
    c.firstName + " " + c.lastName
  }

  /** `str(contact)`: the username of the contact's user; fails when the user
      row cannot be fetched. */
  function ContactToString(db: Database, c: Contact): (r: Result<string>)
    ensures r.Ok? ==> exists u :: u in db.users && u.id == c.user && r.value == u.username
    ensures r.Ok? ==> GetByKey(db.users, UserKey, c.user).Ok? && r.value == GetByKey(db.users, UserKey, c.user).value.username
    ensures DistinctKeys(db.users, UserKey) && c.user in Keys(db.users, UserKey) ==> r.Ok?
  {
    match GetByKey(db.users, UserKey, c.user)
    case Ok(u) => Ok(u.username)
    case Err(e) => Err(e)
  }

  /** Under the schema's guarantees, the rows a contract refers to can be fetched. */
  lemma ContractRowsResolve(db: Database, k: Contract)
    ensures db.Valid() && k in db.contracts ==>
      && GetByKey(db.clients, ClientKey, k.client).Ok?
      && GetByKey(db.salesContacts, ContactKey, k.salesContact).Ok?
      && ContactToString(db, GetByKey(db.salesContacts, ContactKey, k.salesContact).value).Ok?
  {
    if db.Valid() && k in db.contracts {
      assert db.ContractsValid() && db.ContactsValid(SalesRole) && db.UsersValid();
      var c := GetByKey(db.salesContacts, ContactKey, k.salesContact).value;
      assert c in db.Contacts(SalesRole);
    }
  }

  /** `str(contract)`: client, sales contact, status, amount and payment date,
      separated by " | "; fails when a referenced row cannot be fetched. */
  function ContractToString(db: Database, k: Contract, show: Timestamp -> string): (r: Result<string>)
    ensures db.Valid() && k in db.contracts ==> r.Ok?
    ensures r.Ok? ==> k.client in Keys(db.clients, ClientKey) && k.salesContact in Keys(db.salesContacts, ContactKey)
    ensures r.Ok? ==> exists client, contact, u ::
      && client in db.clients && client.id == k.client
      && contact in db.salesContacts && contact.id == k.salesContact
      && u in db.users && u.id == contact.user
      && r.value == ClientToString(client) + " | " + u.username + " | " + BoolToString(k.status) + " | "
           + DecimalToString(k.amount) + " | " + show(k.paymentDue)
  {
    ContractRowsResolve(db, k);
    match GetByKey(db.clients, ClientKey, k.client)
    case Err(e) => Err(e)
    case Ok(client) =>
      match GetByKey(db.salesContacts, ContactKey, k.salesContact)
      case Err(e) => Err(e)
      case Ok(contact) =>
        match ContactToString(db, contact)
        case Err(e) => Err(e)
        case Ok(name) =>
          var u := GetByKey(db.users, UserKey, contact.user).value;
          assert u in db.users && u.id == contact.user && name == u.username;
          var line := ClientToString(client) + " | " + name + " | " + BoolToString(k.status) + " | "
            + DecimalToString(k.amount) + " | " + show(k.paymentDue);
          Ok(line)
  }

  /** `str(event)`: client, support contact, status label, attendees and date,
      separated by " | "; fails when a referenced row cannot be fetched. */
  function EventToString(db: Database, e: Event, show: Timestamp -> string): (r: Result<string>)
    ensures db.Valid() && e in db.events ==> r.Ok?
    ensures r.Ok? ==>
      && e.client in Keys(db.clients, ClientKey) && e.supportContact in Keys(db.supportContacts, ContactKey)
      && e.eventStatus in Keys(db.eventStatuses, EventStatusKey)
    ensures r.Ok? ==> exists client, contact, u, status ::
      && client in db.clients && client.id == e.client
      && contact in db.supportContacts && contact.id == e.supportContact
      && u in db.users && u.id == contact.user
      && status in db.eventStatuses && status.id == e.eventStatus
      && r.value == ClientToString(client) + " | " + u.username + " | " + StatusDisplay(status.status) + " | "
           + IntToString(e.attendees) + " | " + show(e.eventDate)
  {
    EventRowsResolve(db, e);
    match GetByKey(db.clients, ClientKey, e.client)
    case Err(err) => Err(err)
    case Ok(client) =>
      match GetByKey(db.supportContacts, ContactKey, e.supportContact)
      case Err(err) => Err(err)
      case Ok(contact) =>
        match ContactToString(db, contact)
        case Err(err) => Err(err)
        case Ok(name) =>
          match GetByKey(db.eventStatuses, EventStatusKey, e.eventStatus)
          case Err(err) => Err(err)
          case Ok(status) =>
            var u := GetByKey(db.users, UserKey, contact.user).value;
            assert u in db.users && u.id == contact.user && name == u.username;
            var line := ClientToString(client) + " | " + name + " | " + StatusDisplay(status.status) + " | "
              + IntToString(e.attendees) + " | " + show(e.eventDate);
            Ok(line)
  }

  /** Under the schema's guarantees, the rows an event refers to can be fetched. */
  lemma EventRowsResolve(db: Database, e: Event)
    ensures db.Valid() && e in db.events ==>
      && GetByKey(db.clients, ClientKey, e.client).Ok?
      && GetByKey(db.supportContacts, ContactKey, e.supportContact).Ok?
      && ContactToString(db, GetByKey(db.supportContacts, ContactKey, e.supportContact).value).Ok?
      && GetByKey(db.eventStatuses, EventStatusKey, e.eventStatus).Ok?
  {
    if db.Valid() && e in db.events {
      assert db.EventsValid() && db.ClientsValid() && db.ContactsValid(SupportRole) && db.UsersValid();
      var c := GetByKey(db.supportContacts, ContactKey, e.supportContact).value;
      assert c in db.Contacts(SupportRole);
    }
  }

  /** `str(Decimal("1000.00"))`. */
  lemma ThousandToString()
    ensures DecimalToString(100000) == "1000.00"
  {
    assert NatToString(1) == "1";
    assert NatToString(10) == "10";
    assert NatToString(100) == "100";
    assert NatToString(1000) == "1000";
  }

  /** The rows of the contract model test: one seller, one client, one contract. */
  function ContractTestDb(due: Timestamp): Database {
    Database(
      [User(1, "test_sales_contact", "test", false, false, true, {"SALES"})], {"SALES"},
      [Contact(1, 1)], [], [],
      [Client(1, "test", "client", "testclient@example.com", "", "", 1)],
      [Contract(1, 1, 1, true, 100000, due)], [], [])
  }

  lemma ContractTestLookups(due: Timestamp)
    ensures var db := ContractTestDb(due);
      && GetByKey(db.clients, ClientKey, 1) == Ok(db.clients[0])
      && GetByKey(db.salesContacts, ContactKey, 1) == Ok(Contact(1, 1))
      && ContactToString(db, Contact(1, 1)) == Ok("test_sales_contact")
  {
    var db := ContractTestDb(due);
    assert ClientKey(db.clients[0]) == 1;
    assert ContactKey(db.salesContacts[0]) == 1;
    assert UserKey(db.users[0]) == 1;
  }

  /** The string forms on the rows of the model tests. */
  lemma StringFormsExamples(show: Timestamp -> string, due: Timestamp)
    ensures ClientToString(Client(1, "Test", "Client", "test@example.com", "", "", 1)) == "Test Client"
    ensures ContractToString(ContractTestDb(due), ContractTestDb(due).contracts[0], show)
      == Ok("test client" + " | " + "test_sales_contact" + " | " + "True" + " | " + "1000.00" + " | " + show(due))
  {
    ContractTestLookups(due);
    ThousandToString();
    var db := ContractTestDb(due);
    assert ClientToString(db.clients[0]) == "test client";
    assert BoolToString(true) == "True";
  }

  /** The rows of the event model test: a seller owning the client, a
      support contact, the CREATED status and one event for 100 attendees. */
  function EventTestDb(date: Timestamp): Database {
    Database(
      [User(1, "test_sales_contact", "test", false, false, true, {"SALES"}),
       User(2, "test_support_contact", "test", false, false, true, {"SUPPORT"})],
      {"SALES", "SUPPORT"},
      [Contact(1, 1)], [], [Contact(1, 2)],
      [Client(1, "test", "client", "testclient@example.com", "", "", 1)],
      [], [EventStatus(1, "C")],
      [Event(1, 1, 1, 1, 100, date, "")])
  }

  lemma EventTestLookups(date: Timestamp)
    ensures var db := EventTestDb(date);
      && GetByKey(db.clients, ClientKey, 1) == Ok(db.clients[0])
      && GetByKey(db.supportContacts, ContactKey, 1) == Ok(Contact(1, 2))
      && ContactToString(db, Contact(1, 2)) == Ok("test_support_contact")
      && GetByKey(db.eventStatuses, EventStatusKey, 1) == Ok(EventStatus(1, "C"))
  {
    var db := EventTestDb(date);
    assert ClientKey(db.clients[0]) == 1;
    assert ContactKey(db.supportContacts[0]) == 1;
    assert UserKey(db.users[0]) == 1 && UserKey(db.users[1]) == 2;
    assert EventStatusKey(db.eventStatuses[0]) == 1;
  }

  lemma EventTestTexts()
    ensures ClientToString(Client(1, "test", "client", "testclient@example.com", "", "", 1)) == "test client"
    ensures StatusDisplay("C") == "CREATED"
    ensures IntToString(100) == "100"
  {
    assert NatToString(1) == "1" && NatToString(10) == "10" && NatToString(100) == "100";
  }

  /** The event of the model test renders with its status label and attendee count. */
  lemma EventStringExample(show: Timestamp -> string, date: Timestamp)
    ensures EventToString(EventTestDb(date), EventTestDb(date).events[0], show)
      == Ok("test client" + " | " + "test_support_contact" + " | " + "CREATED" + " | " + "100" + " | " + show(date))
  {
    EventTestLookups(date);
    EventTestTexts();
  }

  // ---------------------------------------------------------------------------
  // Saving a contact

  /** The database and the outcome after a save. */
  datatype Saved<T> = Saved(db: Database, result: Result<T>)

  /** Another user row already has `u`'s username. */
  predicate UsernameTaken(users: seq<User>, u: User) {
    exists x :: x in users && x.username == u.username && x.id != u.id
  }

  /** The groups stored for user `id`; none for a user not yet stored. */
  function StoredGroups(users: seq<User>, id: nat): set<string> {
    match GetByKey(users, UserKey, id)
    case Ok(x) => x.groups
    case Err(_) => {}
  }

  /** `user.save()`: writes the user's own columns; its group memberships live
      in a separate relation and stay as they were. */
  function SaveUser(users: seq<User>, u: User): seq<User> {
    Upsert(users, UserKey, u.(groups := StoredGroups(users, u.id)))
  }

  /** `user.groups.add(group)` for the user stored under `id`. */
  function JoinGroup(users: seq<User>, id: nat, g: string): (r: seq<User>)
    ensures |r| == |users|
    ensures forall i :: 0 <= i < |users| ==> r[i] == if users[i].id == id then users[i].(groups := users[i].groups + {g}) else users[i]
  {
    seq(|users|, i requires 0 <= i < |users| =>
      if users[i].id == id then users[i].(groups := users[i].groups + {g}) else users[i])
  }

  /** Another contact of the same kind already belongs to `c`'s user. */
  predicate UserLinkedElsewhere(contacts: seq<Contact>, c: Contact) {
    exists x :: x in contacts && x.user == c.user && x.id != c.id
  }

  /** The contact row a save writes: the given key, or the next free one. */
  function ContactRow(contacts: seq<Contact>, contactId: Option<nat>, user: User): (c: Contact)
    ensures contactId.Some? ==> c.id == contactId.value
    ensures contactId.None? ==> c.id !in Keys(contacts, ContactKey)
    ensures c.user == user.id
  {
    Contact(if contactId.Some? then contactId.value else FreshKey(contacts, ContactKey), user.id)
  }

  /** `SalesContact.save()`, `StaffContact.save()`, `SupportContact.save()`:
      store the user, add it to the role's group (DoesNotExist when that group
      is missing, with the user already stored), then store the contact. Each
      write is committed as it happens. */
  function SaveContactSpec(db: Database, role: Role, contactId: Option<nat>, user: User): Saved<Contact> {
    if UsernameTaken(db.users, user) then Saved(db, Err(IntegrityError))
    else
      var db1 := db.(users := SaveUser(db.users, user));
      if GroupOf(role) !in db1.groups then Saved(db1, Err(DoesNotExist))
      else
        var db2 := db1.(users := JoinGroup(db1.users, user.id, GroupOf(role)));
        var c := ContactRow(db2.Contacts(role), contactId, user);
        if UserLinkedElsewhere(db2.Contacts(role), c) then Saved(db2, Err(IntegrityError))
        else Saved(db2.WithContacts(role, Upsert(db2.Contacts(role), ContactKey, c)), Ok(c))
  }

  /** A contact save fails exactly when the username is taken by another
      user, the role's group is missing, or the user already has another
      contact of that kind. */
  lemma SaveContactOutcome(db: Database, role: Role, contactId: Option<nat>, user: User)
    ensures SaveContactSpec(db, role, contactId, user).result.Ok? <==>
      && !UsernameTaken(db.users, user) && GroupOf(role) in db.groups
      && !UserLinkedElsewhere(db.Contacts(role), ContactRow(db.Contacts(role), contactId, user))
  {
    var db2 := db.(users := JoinGroup(SaveUser(db.users, user), user.id, GroupOf(role)));
    assert db2.Contacts(role) == db.Contacts(role);
  }

  /** A successful contact save leaves the user in the role's group with every
      membership it had before. */
  lemma SaveContactJoinsGroup(db: Database, role: Role, contactId: Option<nat>, user: User)
    requires db.UsersValid()
    requires SaveContactSpec(db, role, contactId, user).result.Ok?
    ensures StoredGroups(SaveContactSpec(db, role, contactId, user).db.users, user.id)
      == StoredGroups(db.users, user.id) + {GroupOf(role)}
  {
    SuccessfulSaveUsers(db, role, contactId, user);
    SaveUserThenJoin(db.users, user, GroupOf(role));
  }

  /** A user already in the role's group keeps the same groups, so saving a
      contact twice leaves the memberships as saving it once. */
  lemma SaveContactGroupIdempotent(db: Database, role: Role, contactId: Option<nat>, user: User)
    requires db.UsersValid()
    requires SaveContactSpec(db, role, contactId, user).result.Ok?
    requires GroupOf(role) in StoredGroups(db.users, user.id)
    ensures StoredGroups(SaveContactSpec(db, role, contactId, user).db.users, user.id)
      == StoredGroups(db.users, user.id)
  {
    SaveContactJoinsGroup(db, role, contactId, user);
  }

  /** A contact save changes no other user's row. */
  lemma SaveContactKeepsOtherUsers(db: Database, role: Role, contactId: Option<nat>, user: User)
    requires db.UsersValid()
    ensures var after := SaveContactSpec(db, role, contactId, user).db;
      forall x :: x in db.users && x.id != user.id ==> x in after.users
  {
    SaveContactUsers(db, role, contactId, user);
    if !UsernameTaken(db.users, user) {
      SaveUserFacts(db.users, user);
      if GroupOf(role) in db.groups {
        SaveUserThenJoin(db.users, user, GroupOf(role));
      }
    }
  }

  /** The user table after a contact save, by how far the save got. */
  lemma SaveContactUsers(db: Database, role: Role, contactId: Option<nat>, user: User)
    ensures SaveContactSpec(db, role, contactId, user).db.users ==
      if UsernameTaken(db.users, user) then db.users
      else if GroupOf(role) !in db.groups then SaveUser(db.users, user)
      else JoinGroup(SaveUser(db.users, user), user.id, GroupOf(role))
  {
  }

  /** After a successful contact save the user table is the stored one with
      the user saved and added to the role's group. */
  lemma SuccessfulSaveUsers(db: Database, role: Role, contactId: Option<nat>, user: User)
    requires SaveContactSpec(db, role, contactId, user).result.Ok?
    ensures !UsernameTaken(db.users, user)
    ensures SaveContactSpec(db, role, contactId, user).db.users == JoinGroup(SaveUser(db.users, user), user.id, GroupOf(role))
  {
  }

  /** With distinct keys, the row fetched under a key is the one at its position. */
  lemma StoredGroupsAt(users: seq<User>, i: nat)
    requires DistinctKeys(users, UserKey) && i < |users|
    ensures StoredGroups(users, users[i].id) == users[i].groups
  {
    assert UserKey(users[i]) in Keys(users, UserKey);
    var x := GetByKey(users, UserKey, users[i].id).value;
    var j :| 0 <= j < |users| && users[j] == x;
  }

  /** `user.save()` keeps the schema's user guarantees when the username is
      free, and adds the user's key to those in use. */
  lemma SaveUserFacts(users: seq<User>, user: User)
    requires DistinctKeys(users, UserKey) && DistinctKeys(users, UsernameOf)
    requires !UsernameTaken(users, user)
    ensures var u1 := SaveUser(users, user);
      && DistinctKeys(u1, UserKey) && DistinctKeys(u1, UsernameOf)
      && Keys(u1, UserKey) == Keys(users, UserKey) + {user.id}
      && user.(groups := StoredGroups(users, user.id)) in u1
      && forall x :: x in users && x.id != user.id ==> x in u1
  {
    var row := user.(groups := StoredGroups(users, user.id));
    UpsertKeepsUnique(users, UserKey, UserKey, row);
    UpsertKeepsUnique(users, UserKey, UsernameOf, row);
    SaveUserKeys(users, user);
    SaveUserRows(users, user);
  }

  lemma SaveUserKeys(users: seq<User>, user: User)
    ensures Keys(SaveUser(users, user), UserKey) == Keys(users, UserKey) + {user.id}
  {
    UpsertKeys(users, UserKey, user.(groups := StoredGroups(users, user.id)));
  }

  lemma SaveUserRows(users: seq<User>, user: User)
    ensures var u1 := SaveUser(users, user);
      && user.(groups := StoredGroups(users, user.id)) in u1
      && forall x :: x in users && x.id != user.id ==> x in u1
  {
    var row := user.(groups := StoredGroups(users, user.id));
    UpsertKeepsOthers(users, UserKey, row);
  }

  /** `groups.add(g)` changes only the groups of the one user under `id`. */
  lemma JoinGroupFacts(users: seq<User>, id: nat, g: string)
    requires DistinctKeys(users, UserKey) && DistinctKeys(users, UsernameOf)
    ensures var r := JoinGroup(users, id, g);
      && DistinctKeys(r, UserKey) && DistinctKeys(r, UsernameOf)
      && Keys(r, UserKey) == Keys(users, UserKey)
      && (id in Keys(users, UserKey) ==> StoredGroups(r, id) == StoredGroups(users, id) + {g})
      && forall x :: x in users && x.id != id ==> x in r
  {
    var r := JoinGroup(users, id, g);
    SameColumn(users, r, UserKey);
    SameColumn(users, r, UsernameOf);
    if id in Keys(users, UserKey) {
      var i :| 0 <= i < |users| && users[i].id == id;
      StoredGroupsAt(users, i);
      StoredGroupsAt(r, i);
    }
    forall x | x in users && x.id != id ensures x in r {
      var j :| 0 <= j < |users| && users[j] == x;
      assert r[j] == x;
    }
  }

  /** Storing a user and then adding it to group `g`: its groups become the
      stored ones plus `g`, every other user row is kept, and the schema's
      user guarantees survive. */
  lemma SaveUserThenJoin(users: seq<User>, user: User, g: string)
    requires DistinctKeys(users, UserKey) && DistinctKeys(users, UsernameOf)
    requires !UsernameTaken(users, user)
    ensures var r := JoinGroup(SaveUser(users, user), user.id, g);
      && StoredGroups(r, user.id) == StoredGroups(users, user.id) + {g}
      && (forall x :: x in users && x.id != user.id ==> x in r)
      && DistinctKeys(r, UserKey) && DistinctKeys(r, UsernameOf)
      && Keys(r, UserKey) == Keys(users, UserKey) + {user.id}
  {
    var u1 := SaveUser(users, user);
    SaveUserFacts(users, user);
    JoinGroupFacts(u1, user.id, g);
    var row := user.(groups := StoredGroups(users, user.id));
    var i :| 0 <= i < |u1| && u1[i] == row;
    StoredGroupsAt(u1, i);
  }

  /** Replacing the user table by one with the same guarantees and at least
      the same keys keeps the database valid. */
  lemma UsersGrowKeepValid(db: Database, users: seq<User>)
    requires db.Valid()
    requires DistinctKeys(users, UserKey) && DistinctKeys(users, UsernameOf)
    requires Keys(db.users, UserKey) <= Keys(users, UserKey)
    ensures db.(users := users).Valid()
  {
    var d := db.(users := users);
    forall role: Role ensures d.ContactsValid(role) {
      assert db.ContactsValid(role);
    }
  }

  /** Storing contact `c` of kind `role` keeps the database valid when its user
      is stored and has no other contact of that kind. */
  lemma ContactUpsertKeepsValid(db: Database, role: Role, c: Contact)
    requires db.Valid()
    requires c.user in Keys(db.users, UserKey)
    requires !UserLinkedElsewhere(db.Contacts(role), c)
    ensures db.WithContacts(role, Upsert(db.Contacts(role), ContactKey, c)).Valid()
  {
    var s := db.Contacts(role);
    var s' := Upsert(s, ContactKey, c);
    var d := db.WithContacts(role, s');
    assert db.ContactsValid(role);
    UpsertRows(s, ContactKey, c);
    UpsertKeepsUnique(s, ContactKey, ContactKey, c);
    UpsertKeepsUnique(s, ContactKey, ContactUser, c);
    assert d.ContactsValid(role);
    forall other: Role | other != role ensures d.ContactsValid(other) {
      assert db.ContactsValid(other);
    }
    assert Keys(db.salesContacts, ContactKey) <= Keys(d.salesContacts, ContactKey);
    assert Keys(db.supportContacts, ContactKey) <= Keys(d.supportContacts, ContactKey);
    assert db.ClientsValid() && db.ContractsValid() && db.EventsValid();
  }

  /** A contact save, whatever its outcome, leaves the database valid. */
  lemma SaveContactKeepsValid(db: Database, role: Role, contactId: Option<nat>, user: User)
    requires db.Valid()
    ensures SaveContactSpec(db, role, contactId, user).db.Valid()
  {
    if !UsernameTaken(db.users, user) {
      var db1 := db.(users := SaveUser(db.users, user));
      SaveUserKeepsValid(db, user);
      if GroupOf(role) in db1.groups {
        var db2 := db1.(users := JoinGroup(db1.users, user.id, GroupOf(role)));
        JoinGroupKeepsValid(db1, user.id, GroupOf(role));
        var c := ContactRow(db2.Contacts(role), contactId, user);
        if !UserLinkedElsewhere(db2.Contacts(role), c) {
          ContactUpsertKeepsValid(db2, role, c);
        }
      }
    }
  }

  lemma SaveUserKeepsValid(db: Database, user: User)
    requires db.Valid() && !UsernameTaken(db.users, user)
    ensures db.(users := SaveUser(db.users, user)).Valid()
    ensures user.id in Keys(SaveUser(db.users, user), UserKey)
  {
    assert db.UsersValid();
    SaveUserFacts(db.users, user);
    UsersGrowKeepValid(db, SaveUser(db.users, user));
  }

  lemma JoinGroupKeepsValid(db: Database, id: nat, g: string)
    requires db.Valid()
    ensures db.(users := JoinGroup(db.users, id, g)).Valid()
    ensures Keys(JoinGroup(db.users, id, g), UserKey) == Keys(db.users, UserKey)
  {
    assert db.UsersValid();
    JoinGroupFacts(db.users, id, g);
    UsersGrowKeepValid(db, JoinGroup(db.users, id, g));
  }

  /** The stored state: the tables, updated in place as rows are saved. */
  class Store {
    var db: Database

    constructor (initial: Database)
      requires initial.Valid()
      ensures db == initial && db.Valid()
    {
      db := initial;
    }

    /** `<Role>Contact.save()` for a contact under `contactId` (a new one when
        None) belonging to `user`. */
    method SaveContact(role: Role, contactId: Option<nat>, user: User) returns (r: Result<Contact>)
      requires db.Valid()
      modifies this
      ensures db.Valid()
      ensures Saved(db, r) == SaveContactSpec(old(db), role, contactId, user)
    {
      SaveContactKeepsValid(db, role, contactId, user);
      if UsernameTaken(db.users, user) {
        return Err(IntegrityError);
      }
      db := db.(users := SaveUser(db.users, user));
      var group := GroupOf(role);
      if group !in db.groups {
        return Err(DoesNotExist);
      }
      db := db.(users := JoinGroup(db.users, user.id, group));
      var c := ContactRow(db.Contacts(role), contactId, user);
      if UserLinkedElsewhere(db.Contacts(role), c) {
        return Err(IntegrityError);
      }
      db := db.WithContacts(role, Upsert(db.Contacts(role), ContactKey, c));
      r := Ok(c);
    }
  }
}
