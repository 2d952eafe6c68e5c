/** The serializers' own rules: which ids the raw payload must carry, how
    `save` resolves those ids to stored rows before writing, and what creating
    or updating a contact does to the user table. */
module Serializers {
  import opened Results
  import opened Querysets
  import opened Auth
  import opened Models
  import opened Payload

  // ---------------------------------------------------------------------------
  // validate

  const SalesContactRequired: Failure := ValidationError("sales_contact_id is required in data", "invalid")
  const ClientRequired: Failure := ValidationError("client_id is required in data", "invalid")
  const SupportAndClientRequired: Failure :=
    ValidationError("support_contact_id and client_id are required in data", "invalid")

  /** `ClientSerializer.validate`: the raw payload must name a sales contact;
      the validated fields `attrs` pass through unchanged. */
  function ValidateClient<A>(raw: Data, attrs: A): (r: Result<A>)
    ensures r.Err? <==> "sales_contact_id" !in raw
    ensures r.Err? ==> r.error == SalesContactRequired
    ensures r.Ok? ==> r.value == attrs
  {
    if "sales_contact_id" !in raw then Err(SalesContactRequired) else Ok(attrs)
  }

  /** `ContractSerializer.validate`: the sales contact is checked before the
      client, so with both missing the error names the sales contact. */
  function ValidateContract<A>(raw: Data, attrs: A): (r: Result<A>)
    ensures r.Ok? <==> "sales_contact_id" in raw && "client_id" in raw
    ensures "sales_contact_id" !in raw ==> r == Err(SalesContactRequired)
    ensures "sales_contact_id" in raw && "client_id" !in raw ==> r == Err(ClientRequired)
    ensures r.Ok? ==> r.value == attrs
  {
    if "sales_contact_id" !in raw then Err(SalesContactRequired)
    else if "client_id" !in raw then Err(ClientRequired)
    else Ok(attrs)
  }

  /** `EventSerializer.validate`: one error whichever of the two ids is
      missing; the event status id is not checked. */
  function ValidateEvent<A>(raw: Data, attrs: A): (r: Result<A>)
    ensures r.Err? <==> "support_contact_id" !in raw || "client_id" !in raw
    ensures r.Err? ==> r.error == SupportAndClientRequired
    ensures r.Ok? ==> r.value == attrs
  {
    if "support_contact_id" !in raw || "client_id" !in raw then Err(SupportAndClientRequired)
    else Ok(attrs)
  }

  // ---------------------------------------------------------------------------
  // Reference resolution

  /** `get_object_or_404(Model, pk=data[field])`: the row of `table` whose
      primary key the payload names. A missing field is a KeyError, a string
      that is no integer a ValueError, an array or object a TypeError, and a
      key no row has NotFound. */
  function Resolve<T(==,!new)>(table: seq<T>, key: T -> int, data: Data, field: string): (r: Result<T>)
    ensures field !in data ==> r == Err(KeyError(field))
    ensures r.Ok? ==> r.value in table && PkOf(data[field]) == Ok(Some(key(r.value)))
    ensures r == Err(NotFound) <==>
      && field in data && PkOf(data[field]).Ok?
      && (PkOf(data[field]).value.None? || PkOf(data[field]).value.value !in Keys(table, key))
    ensures r == Err(ValueError) <==> field in data && PkOf(data[field]) == Err(ValueError)
    ensures r == Err(TypeError) <==> field in data && PkOf(data[field]) == Err(TypeError)
    ensures DistinctKeys(table, key) ==> r.Ok? || r.error in {KeyError(field), ValueError, TypeError, NotFound}
  {
    match Field(data, field)
    case Err(e) => Err(e)
    case Ok(v) =>
      match PkOf(v)
      case Err(e) => Err(e)
      case Ok(None) => Err(NotFound)
      case Ok(Some(k)) =>
        match GetByKey(table, key, k)
        case Ok(x) => Ok(x)
        case Err(e) => if e == DoesNotExist then Err(NotFound) else Err(e)
  }

  /** The key a row is saved under: the instance's own, or the next free one. */
  function RowKey<T>(table: seq<T>, key: T -> int, id: Option<nat>): (k: nat)
    ensures id.Some? ==> k == id.value
    ensures id.None? ==> forall i :: 0 <= i < |table| ==> key(table[i]) < k
    ensures id.None? ==> k !in Keys(table, key)
  {
    if id.Some? then id.value else FreshKey(table, key)
  }

  // ---------------------------------------------------------------------------
  // save

  /** Another client already has `c`'s e-mail address. */
  predicate EmailTaken(clients: seq<Client>, c: Client) {
    exists x :: x in clients && x.email == c.email && x.id != c.id
  }

  /** `ClientSerializer.save`: resolves the sales contact the payload names,
      then writes the client (under `id`, or a new key) with it; a clashing
      e-mail is refused by the database. */
  function SaveClientSpec(db: Database, data: Data, id: Option<nat>, row: Client): (s: Saved<Client>)
    ensures Resolve(db.salesContacts, ContactKey, data, "sales_contact_id").Err? ==>
      s == Saved(db, Err(Resolve(db.salesContacts, ContactKey, data, "sales_contact_id").error))
    ensures Resolve(db.salesContacts, ContactKey, data, "sales_contact_id").Ok? ==>
      (s.result.Err? <==> exists x :: x in db.clients && x.email == row.email && x.id != RowKey(db.clients, ClientKey, id))
    ensures s.result.Err? ==> s.db == db
    ensures s.result.Ok? ==> s.result.value.salesContact in Keys(db.salesContacts, ContactKey)
    ensures s.result.Ok? ==>
      "sales_contact_id" in data && PkOf(data["sales_contact_id"]) == Ok(Some(s.result.value.salesContact))
    ensures s.result.Ok? ==> s.result.value == row.(id := s.result.value.id, salesContact := s.result.value.salesContact)
    ensures s.result.Ok? && id.Some? ==> s.result.value.id == id.value
    ensures s.result.Ok? && id.None? ==> s.result.value.id !in Keys(db.clients, ClientKey)
    ensures s.result.Ok? ==> s.db == db.(clients := s.db.clients) && SavedOver(db.clients, s.db.clients, ClientKey, s.result.value)
  {
    match Resolve(db.salesContacts, ContactKey, data, "sales_contact_id")
    case Err(e) => Saved(db, Err(e))
    case Ok(sc) =>
      var c := row.(id := RowKey(db.clients, ClientKey, id), salesContact := sc.id);
      if EmailTaken(db.clients, c) then Saved(db, Err(IntegrityError))
      else
        UpsertSavesOver(db.clients, ClientKey, c);
        Saved(db.(clients := Upsert(db.clients, ClientKey, c)), Ok(c))
  }

  /** `ContractSerializer.save`: resolves the sales contact, then the client;
      the first that fails decides the error. */
  function SaveContractSpec(db: Database, data: Data, id: Option<nat>, row: Contract): (s: Saved<Contract>)
    ensures Resolve(db.salesContacts, ContactKey, data, "sales_contact_id").Err? ==>
      s == Saved(db, Err(Resolve(db.salesContacts, ContactKey, data, "sales_contact_id").error))
    ensures (Resolve(db.salesContacts, ContactKey, data, "sales_contact_id").Ok?
      && Resolve(db.clients, ClientKey, data, "client_id").Err?) ==>
      s == Saved(db, Err(Resolve(db.clients, ClientKey, data, "client_id").error))
    ensures s.result.Ok? <==>
      Resolve(db.salesContacts, ContactKey, data, "sales_contact_id").Ok? && Resolve(db.clients, ClientKey, data, "client_id").Ok?
    ensures s.result.Err? ==> s.db == db
    ensures s.result.Ok? ==>
      && s.result.value.salesContact in Keys(db.salesContacts, ContactKey)
      && s.result.value.client in Keys(db.clients, ClientKey)
    ensures s.result.Ok? ==>
      && "sales_contact_id" in data && PkOf(data["sales_contact_id"]) == Ok(Some(s.result.value.salesContact))
      && "client_id" in data && PkOf(data["client_id"]) == Ok(Some(s.result.value.client))
    ensures s.result.Ok? ==>
      s.result.value == row.(id := s.result.value.id, salesContact := s.result.value.salesContact, client := s.result.value.client)
    ensures s.result.Ok? && id.Some? ==> s.result.value.id == id.value
    ensures s.result.Ok? && id.None? ==> s.result.value.id !in Keys(db.contracts, ContractKey)
    ensures s.result.Ok? ==>
      s.db == db.(contracts := s.db.contracts) && SavedOver(db.contracts, s.db.contracts, ContractKey, s.result.value)
  {
    match Resolve(db.salesContacts, ContactKey, data, "sales_contact_id")
    case Err(e) => Saved(db, Err(e))
    case Ok(sc) =>
      match Resolve(db.clients, ClientKey, data, "client_id")
      case Err(e) => Saved(db, Err(e))
      case Ok(client) =>
        var k := row.(id := RowKey(db.contracts, ContractKey, id), salesContact := sc.id, client := client.id);
        UpsertSavesOver(db.contracts, ContractKey, k);
        Saved(db.(contracts := Upsert(db.contracts, ContractKey, k)), Ok(k))
  }

  /** `EventSerializer.save`: resolves the support contact, the client and the
      event status, in that order; the first that fails decides the error. */
  function SaveEventSpec(db: Database, data: Data, id: Option<nat>, row: Event): (s: Saved<Event>)
    ensures Resolve(db.supportContacts, ContactKey, data, "support_contact_id").Err? ==>
      s == Saved(db, Err(Resolve(db.supportContacts, ContactKey, data, "support_contact_id").error))
    ensures (Resolve(db.supportContacts, ContactKey, data, "support_contact_id").Ok?
      && Resolve(db.clients, ClientKey, data, "client_id").Err?) ==>
      s == Saved(db, Err(Resolve(db.clients, ClientKey, data, "client_id").error))
    ensures (Resolve(db.supportContacts, ContactKey, data, "support_contact_id").Ok?
      && Resolve(db.clients, ClientKey, data, "client_id").Ok?
      && Resolve(db.eventStatuses, EventStatusKey, data, "event_status_id").Err?) ==>
      s == Saved(db, Err(Resolve(db.eventStatuses, EventStatusKey, data, "event_status_id").error))
    ensures s.result.Ok? <==>
      && Resolve(db.supportContacts, ContactKey, data, "support_contact_id").Ok?
      && Resolve(db.clients, ClientKey, data, "client_id").Ok?
      && Resolve(db.eventStatuses, EventStatusKey, data, "event_status_id").Ok?
    ensures s.result.Err? ==> s.db == db
    ensures s.result.Ok? ==>
      && s.result.value.supportContact in Keys(db.supportContacts, ContactKey)
      && s.result.value.client in Keys(db.clients, ClientKey)
      && s.result.value.eventStatus in Keys(db.eventStatuses, EventStatusKey)
    ensures s.result.Ok? ==>
      && "support_contact_id" in data && PkOf(data["support_contact_id"]) == Ok(Some(s.result.value.supportContact))
      && "client_id" in data && PkOf(data["client_id"]) == Ok(Some(s.result.value.client))
      && "event_status_id" in data && PkOf(data["event_status_id"]) == Ok(Some(s.result.value.eventStatus))
    ensures s.result.Ok? ==>
      s.result.value == row.(id := s.result.value.id, supportContact := s.result.value.supportContact,
                             client := s.result.value.client, eventStatus := s.result.value.eventStatus)
    ensures s.result.Ok? && id.Some? ==> s.result.value.id == id.value
    ensures s.result.Ok? && id.None? ==> s.result.value.id !in Keys(db.events, EventKey)
    ensures s.result.Ok? ==>
      s.db == db.(events := s.db.events) && SavedOver(db.events, s.db.events, EventKey, s.result.value)
  {
    match Resolve(db.supportContacts, ContactKey, data, "support_contact_id")
    case Err(e) => Saved(db, Err(e))
    case Ok(support) =>
      match Resolve(db.clients, ClientKey, data, "client_id")
      case Err(e) => Saved(db, Err(e))
      case Ok(client) =>
        match Resolve(db.eventStatuses, EventStatusKey, data, "event_status_id")
        case Err(e) => Saved(db, Err(e))
        case Ok(status) =>
          var e := row.(id := RowKey(db.events, EventKey, id), supportContact := support.id,
                        client := client.id, eventStatus := status.id);
          UpsertSavesOver(db.events, EventKey, e);
          Saved(db.(events := Upsert(db.events, EventKey, e)), Ok(e))
  }

  // ---------------------------------------------------------------------------
  // Contact serializers

  /** Some stored user already has this username. */
  predicate UsernameInUse(users: seq<User>, username: string) {
    exists x :: x in users && x.username == username
  }

  /** `User.objects.create_user(username, password, is_staff=True)`. */
  function NewStaffUser(users: seq<User>, username: string, password: string): (u: User)
    ensures u.id !in Keys(users, UserKey)
    ensures u.isStaff && u.isActive && !u.isSuperuser && u.groups == {}
  {
    User(FreshKey(users, UserKey), username, password, true, false, true, {})
  }

  /** `create` of the three contact serializers: creates the user, marked as
      staff (IntegrityError when the username is in use), then saves a new
      contact of `role` for it, which puts it into the role's group. A create
      is never partial, and the nested user serializer requires both the
      username and the password, so both are present by the time it runs. */
  function CreateContactSpec(db: Database, role: Role, username: string, password: string): Saved<Contact> {
    if UsernameInUse(db.users, username) then Saved(db, Err(IntegrityError))
    else
      var u := NewStaffUser(db.users, username, password);
      SaveContactSpec(db.(users := db.users + [u]), role, None, u)
  }

  /** `update` of the three contact serializers: sets the password of the
      user named in the payload, which need not be the contact's own, and
      returns the contact pointing at that user. The contact row itself is
      not written. */
  function UpdateContactSpec(db: Database, instance: Contact, username: string, password: string): Saved<Contact> {
    match GetByKey(db.users, UsernameOf, username)
    case Err(e) => Saved(db, Err(e))
    case Ok(u) =>
      Saved(db.(users := SaveUser(db.users, u.(password := password))), Ok(instance.(user := u.id)))
  }

  /** The nested `user` object of a contact payload, field by field. */
  type UserData = map<string, string>

  /** `update` as it runs on the validated data of a request, which for a
      partial update may lack the nested user or any of its fields: pops the
      user (KeyError when absent), reads its username (KeyError when absent),
      looks that user up, and only then reads the password. */
  function UpdateContactRequest(db: Database, instance: Contact, user: Option<UserData>): (s: Saved<Contact>)
    ensures user.None? ==> s == Saved(db, Err(KeyError("user")))
    ensures user.Some? && "username" !in user.value ==> s == Saved(db, Err(KeyError("username")))
    ensures user.Some? && "username" in user.value && !UsernameInUse(db.users, user.value["username"]) ==>
      s == Saved(db, Err(GetByKey(db.users, UsernameOf, user.value["username"]).error))
    ensures (user.Some? && "username" in user.value && "password" !in user.value
      && GetByKey(db.users, UsernameOf, user.value["username"]).Ok?) ==>
      s == Saved(db, Err(KeyError("password")))
    ensures user.Some? && "username" in user.value && "password" in user.value ==>
      s == UpdateContactSpec(db, instance, user.value["username"], user.value["password"])
    ensures s.result.Err? ==> s.db == db
  {
    match user
    case None => Saved(db, Err(KeyError("user")))
    case Some(fields) =>
      if "username" !in fields then Saved(db, Err(KeyError("username")))
      else
        match GetByKey(db.users, UsernameOf, fields["username"])
        case Err(e) => Saved(db, Err(e))
        case Ok(_) =>
          if "password" !in fields then Saved(db, Err(KeyError("password")))
          else UpdateContactSpec(db, instance, fields["username"], fields["password"])
  }

  // ---------------------------------------------------------------------------
  // Properties

  /** Once `validate` has passed, `save` never fails for want of the ids it
      checked: a client or contract save can only fail on a value that is no
      integer, a key no row has, or a clashing e-mail. */
  lemma ValidatedSavesHaveTheirIds(db: Database, raw: Data, id: Option<nat>, c: Client, k: Contract)
    requires db.Valid()
    ensures ValidateClient(raw, c).Ok? ==>
      SaveClientSpec(db, raw, id, c).result.Ok? || SaveClientSpec(db, raw, id, c).result.error in {ValueError, TypeError, NotFound, IntegrityError}
    ensures ValidateContract(raw, k).Ok? ==>
      SaveContractSpec(db, raw, id, k).result.Ok? || SaveContractSpec(db, raw, id, k).result.error in {ValueError, TypeError, NotFound}
  {
    assert db.ContactsValid(SalesRole);
  }

  /** `EventSerializer.validate` does not check `event_status_id`: a payload
      it accepts whose contact and client exist still fails in `save` with a
      KeyError when that id is missing. */
  lemma EventStatusIdUnchecked(db: Database, raw: Data, id: Option<nat>, e: Event)
    requires ValidateEvent(raw, e).Ok?
    requires Resolve(db.supportContacts, ContactKey, raw, "support_contact_id").Ok?
    requires Resolve(db.clients, ClientKey, raw, "client_id").Ok?
    requires "event_status_id" !in raw
    ensures SaveEventSpec(db, raw, id, e) == Saved(db, Err(KeyError("event_status_id")))
  {
  }

  /** A created contact belongs to a new user marked as staff, stored with
      the given username and password and in the role's group alone, and the
      contact is stored in the role's table. */
  lemma CreateContactEffect(db: Database, role: Role, username: string, password: string)
    requires db.UsersValid()
    requires CreateContactSpec(db, role, username, password).result.Ok?
    ensures var s := CreateContactSpec(db, role, username, password);
      var u := NewStaffUser(db.users, username, password);
      && s.result.value.user == u.id
      && s.result.value.id in Keys(s.db.Contacts(role), ContactKey)
      && u.(groups := {GroupOf(role)}) in s.db.users
  {
    var u := NewStaffUser(db.users, username, password);
    var db1 := db.(users := db.users + [u]);
    NewUserKeepsUsersValid(db.users, u);
    var n := |db.users|;
    assert db1.users[n] == u;
    StoredGroupsAt(db1.users, n);
    SuccessfulSaveUsers(db1, role, None, u);
    var saved := SaveUser(db1.users, u);
    assert saved == Replace(db1.users, UserKey, u);
    var joined := JoinGroup(saved, u.id, GroupOf(role));
    assert joined[n] == u.(groups := {GroupOf(role)});
    var c := ContactRow(db1.Contacts(role), None, u);
    var db2 := db1.(users := joined);
    assert db2.Contacts(role) == db1.Contacts(role);
    UpsertRows(db2.Contacts(role), ContactKey, c);
  }

  /** Appending a user with a fresh key and an unused username keeps keys and
      usernames unique. */
  lemma NewUserKeepsUsersValid(users: seq<User>, u: User)
    requires DistinctKeys(users, UserKey) && DistinctKeys(users, UsernameOf)
    requires u.id !in Keys(users, UserKey) && !UsernameInUse(users, u.username)
    ensures DistinctKeys(users + [u], UserKey) && DistinctKeys(users + [u], UsernameOf)
    ensures Keys(users + [u], UserKey) == Keys(users, UserKey) + {u.id}
  {
    var r := users + [u];
    forall i, j | 0 <= i < |r| && 0 <= j < |r| && r[i].id == r[j].id ensures i == j {
      if i < |users| && j < |users| {
        assert UserKey(users[i]) == UserKey(users[j]);
      }
    }
    forall i | 0 <= i < |users| ensures users[i].username != u.username {
      assert users[i] in users;
    }
    forall i, j | 0 <= i < |r| && 0 <= j < |r| && r[i].username == r[j].username ensures i == j {
      if i < |users| && j < |users| {
        assert UsernameOf(users[i]) == UsernameOf(users[j]);
      }
    }
    forall k | k in Keys(r, UserKey) ensures k in Keys(users, UserKey) + {u.id} {
      var i :| 0 <= i < |r| && r[i].id == k;
      if i < |users| { assert UserKey(users[i]) == k; }
    }
    forall k | k in Keys(users, UserKey) ensures k in Keys(r, UserKey) {
      var i :| 0 <= i < |users| && users[i].id == k;
      assert r[i] == users[i];
    }
    assert UserKey(r[|users|]) == u.id;
  }

  /** A contact update fails with DoesNotExist exactly when no user has the
      given username; otherwise it returns the contact, under its own key,
      pointing at the user with that username. */
  lemma UpdateContactOutcome(db: Database, instance: Contact, username: string, password: string)
    requires db.UsersValid()
    ensures var s := UpdateContactSpec(db, instance, username, password);
      && (s.result.Err? <==> !UsernameInUse(db.users, username))
      && (s.result.Err? ==> s == Saved(db, Err(DoesNotExist)))
      && forall x :: x in db.users && x.username == username ==> s.result == Ok(instance.(user := x.id))
  {
    UserByUsername(db.users, username);
  }

  /** The user with the given username, whichever contact it belongs to, gets
      the new password; no other user and no contact row changes. */
  lemma UpdateContactEffect(db: Database, instance: Contact, username: string, password: string)
    requires db.UsersValid()
    ensures var s := UpdateContactSpec(db, instance, username, password);
      && (forall x :: x in db.users && x.username == username ==> x.(password := password) in s.db.users)
      && (forall x :: x in db.users && x.username != username ==> x in s.db.users)
      && s.db == db.(users := s.db.users)
  {
    UserByUsername(db.users, username);
    if UsernameInUse(db.users, username) {
      var u := GetByKey(db.users, UsernameOf, username).value;
      var u' := u.(password := password);
      PasswordChangeKeepsUsername(db.users, u, password);
      SaveUserFacts(db.users, u');
      var iu :| 0 <= iu < |db.users| && db.users[iu] == u;
      StoredGroupsAt(db.users, iu);
    }
  }

  /** With unique usernames, looking a user up by username finds the one row
      carrying it, or DoesNotExist when none does. */
  lemma UserByUsername(users: seq<User>, username: string)
    requires DistinctKeys(users, UsernameOf)
    ensures UsernameInUse(users, username) ==>
      && GetByKey(users, UsernameOf, username).Ok?
      && forall x :: x in users && x.username == username ==> x == GetByKey(users, UsernameOf, username).value
    ensures !UsernameInUse(users, username) ==> GetByKey(users, UsernameOf, username) == Err(DoesNotExist)
  {
    if UsernameInUse(users, username) {
      var y :| y in users && y.username == username;
      var iy :| 0 <= iy < |users| && users[iy] == y;
      assert UsernameOf(users[iy]) == username;
      var u := GetByKey(users, UsernameOf, username).value;
      forall x | x in users && x.username == username ensures x == u {
        var ix :| 0 <= ix < |users| && users[ix] == x;
        var iu :| 0 <= iu < |users| && users[iu] == u;
        assert UsernameOf(users[ix]) == UsernameOf(users[iu]);
      }
    } else {
      forall k | k in Keys(users, UsernameOf) ensures k != username {
        var i :| 0 <= i < |users| && UsernameOf(users[i]) == k;
        assert users[i] in users;
      }
    }
  }

  /** A stored user with a new password does not clash with any other
      user's username. */
  lemma PasswordChangeKeepsUsername(users: seq<User>, u: User, password: string)
    requires DistinctKeys(users, UsernameOf) && u in users
    ensures !UsernameTaken(users, u.(password := password))
  {
    var iu :| 0 <= iu < |users| && users[iu] == u;
    forall x | x in users && x.username == u.username ensures x.id == u.id {
      var ix :| 0 <= ix < |users| && users[ix] == x;
      assert UsernameOf(users[ix]) == UsernameOf(users[iu]);
    }
  }

  // ---------------------------------------------------------------------------
  // The schema's guarantees survive every save

  /** Writing a client whose fields fit their columns keeps the database
      valid. */
  lemma SaveClientKeepsValid(db: Database, data: Data, id: Option<nat>, row: Client)
    requires db.Valid() && row.WithinBounds()
    ensures SaveClientSpec(db, data, id, row).db.Valid()
  {
    var s := SaveClientSpec(db, data, id, row);
    if s.result.Ok? {
      var c := s.result.value;
      assert !EmailTaken(db.clients, c);
      assert c == row.(id := c.id, salesContact := c.salesContact);
      var clients := Upsert(db.clients, ClientKey, c);
      assert s.db == db.(clients := clients);
      UpsertRows(db.clients, ClientKey, c);
      UpsertKeepsUnique(db.clients, ClientKey, ClientKey, c);
      UpsertKeepsUnique(db.clients, ClientKey, EmailOf, c);
      assert s.db.ClientsValid();
      assert Keys(db.clients, ClientKey) <= Keys(clients, ClientKey);
      assert db.ContractsValid() && db.EventsValid();
      assert db.ContactsValid(SalesRole) && db.ContactsValid(StaffRole) && db.ContactsValid(SupportRole);
    }
  }

  /** Writing a contract whose amount fits its column keeps the database
      valid. */
  lemma SaveContractKeepsValid(db: Database, data: Data, id: Option<nat>, row: Contract)
    requires db.Valid() && row.WithinBounds()
    ensures SaveContractSpec(db, data, id, row).db.Valid()
  {
    var s := SaveContractSpec(db, data, id, row);
    if s.result.Ok? {
      var k := s.result.value;
      assert k.amount == row.amount;
      assert s.db == db.(contracts := Upsert(db.contracts, ContractKey, k));
      ContractUpsertKeepsValid(db, k);
    }
  }

  lemma ContractUpsertKeepsValid(db: Database, k: Contract)
    requires db.Valid() && k.WithinBounds()
    requires k.salesContact in Keys(db.salesContacts, ContactKey) && k.client in Keys(db.clients, ClientKey)
    ensures db.(contracts := Upsert(db.contracts, ContractKey, k)).Valid()
  {
    var d := db.(contracts := Upsert(db.contracts, ContractKey, k));
    UpsertRows(db.contracts, ContractKey, k);
    UpsertKeepsUnique(db.contracts, ContractKey, ContractKey, k);
    assert db.ContractsValid();
    assert d.ContractsValid();
    assert db.ClientsValid() && db.EventsValid() && db.UsersValid();
    assert db.ContactsValid(SalesRole) && db.ContactsValid(StaffRole) && db.ContactsValid(SupportRole);
  }

  /** Writing an event whose notes fit their column keeps the database valid. */
  lemma SaveEventKeepsValid(db: Database, data: Data, id: Option<nat>, row: Event)
    requires db.Valid() && row.WithinBounds()
    ensures SaveEventSpec(db, data, id, row).db.Valid()
  {
    var s := SaveEventSpec(db, data, id, row);
    if s.result.Ok? {
      var e := s.result.value;
      assert e.notes == row.notes;
      assert s.db == db.(events := Upsert(db.events, EventKey, e));
      EventUpsertKeepsValid(db, e);
    }
  }

  lemma EventUpsertKeepsValid(db: Database, e: Event)
    requires db.Valid() && e.WithinBounds()
    requires e.client in Keys(db.clients, ClientKey)
    requires e.supportContact in Keys(db.supportContacts, ContactKey)
    requires e.eventStatus in Keys(db.eventStatuses, EventStatusKey)
    ensures db.(events := Upsert(db.events, EventKey, e)).Valid()
  {
    var d := db.(events := Upsert(db.events, EventKey, e));
    UpsertRows(db.events, EventKey, e);
    UpsertKeepsUnique(db.events, EventKey, EventKey, e);
    assert db.EventsValid();
    assert d.EventsValid();
    assert db.ClientsValid() && db.ContractsValid() && db.UsersValid();
    assert db.ContactsValid(SalesRole) && db.ContactsValid(StaffRole) && db.ContactsValid(SupportRole);
  }

  /** Creating a contact keeps the database valid, whatever the outcome. */
  lemma CreateContactKeepsValid(db: Database, role: Role, username: string, password: string)
    requires db.Valid()
    ensures CreateContactSpec(db, role, username, password).db.Valid()
  {
    if !UsernameInUse(db.users, username) {
      var u := NewStaffUser(db.users, username, password);
      NewUserKeepsUsersValid(db.users, u);
      UsersGrowKeepValid(db, db.users + [u]);
      SaveContactKeepsValid(db.(users := db.users + [u]), role, None, u);
    }
  }

  /** Updating a contact keeps the database valid, whatever the outcome. */
  lemma UpdateContactKeepsValid(db: Database, instance: Contact, username: string, password: string)
    requires db.Valid()
    ensures UpdateContactSpec(db, instance, username, password).db.Valid()
  {
    var s := UpdateContactSpec(db, instance, username, password);
    if s.result.Ok? {
      var u := GetByKey(db.users, UsernameOf, username).value;
      var u' := u.(password := password);
      PasswordChangeKeepsUsername(db.users, u, password);
      SaveUserFacts(db.users, u');
      UsersGrowKeepValid(db, SaveUser(db.users, u'));
    }
  }

  // ---------------------------------------------------------------------------
  // The writes, on the stored state

  /** `ClientSerializer.save()` on the store. */
  method SaveClient(store: Store, data: Data, id: Option<nat>, row: Client) returns (r: Result<Client>)
    requires store.db.Valid() && row.WithinBounds()
    modifies store
    ensures store.db.Valid()
    ensures Saved(store.db, r) == SaveClientSpec(old(store.db), data, id, row)
  {
    SaveClientKeepsValid(store.db, data, id, row);
    var salesContact := Resolve(store.db.salesContacts, ContactKey, data, "sales_contact_id");
    if salesContact.Err? {
      return Err(salesContact.error);
    }
    var c := row.(id := RowKey(store.db.clients, ClientKey, id), salesContact := salesContact.value.id);
    if EmailTaken(store.db.clients, c) {
      return Err(IntegrityError);
    }
    store.db := store.db.(clients := Upsert(store.db.clients, ClientKey, c));
    r := Ok(c);
  }

  /** `ContractSerializer.save()` on the store. */
  method SaveContract(store: Store, data: Data, id: Option<nat>, row: Contract) returns (r: Result<Contract>)
    requires store.db.Valid() && row.WithinBounds()
    modifies store
    ensures store.db.Valid()
    ensures Saved(store.db, r) == SaveContractSpec(old(store.db), data, id, row)
  {
    SaveContractKeepsValid(store.db, data, id, row);
    var salesContact := Resolve(store.db.salesContacts, ContactKey, data, "sales_contact_id");
    if salesContact.Err? {
      return Err(salesContact.error);
    }
    var client := Resolve(store.db.clients, ClientKey, data, "client_id");
    if client.Err? {
      return Err(client.error);
    }
    var k := row.(id := RowKey(store.db.contracts, ContractKey, id),
                  salesContact := salesContact.value.id, client := client.value.id);
    store.db := store.db.(contracts := Upsert(store.db.contracts, ContractKey, k));
    r := Ok(k);
  }

  /** `EventSerializer.save()` on the store. */
  method SaveEvent(store: Store, data: Data, id: Option<nat>, row: Event) returns (r: Result<Event>)
    requires store.db.Valid() && row.WithinBounds()
    modifies store
    ensures store.db.Valid()
    ensures Saved(store.db, r) == SaveEventSpec(old(store.db), data, id, row)
  {
    SaveEventKeepsValid(store.db, data, id, row);
    var supportContact := Resolve(store.db.supportContacts, ContactKey, data, "support_contact_id");
    if supportContact.Err? {
      return Err(supportContact.error);
    }
    var client := Resolve(store.db.clients, ClientKey, data, "client_id");
    if client.Err? {
      return Err(client.error);
    }
    var status := Resolve(store.db.eventStatuses, EventStatusKey, data, "event_status_id");
    if status.Err? {
      return Err(status.error);
    }
    var e := row.(id := RowKey(store.db.events, EventKey, id), supportContact := supportContact.value.id,
                  client := client.value.id, eventStatus := status.value.id);
    store.db := store.db.(events := Upsert(store.db.events, EventKey, e));
    r := Ok(e);
  }

  /** `create` of a contact serializer on the store. */
  method CreateContact(store: Store, role: Role, username: string, password: string) returns (r: Result<Contact>)
    requires store.db.Valid()
    modifies store
    ensures store.db.Valid()
    ensures Saved(store.db, r) == CreateContactSpec(old(store.db), role, username, password)
  {
    if UsernameInUse(store.db.users, username) {
      return Err(IntegrityError);
    }
    var user := NewStaffUser(store.db.users, username, password);
    NewUserKeepsUsersValid(store.db.users, user);
    UsersGrowKeepValid(store.db, store.db.users + [user]);
    store.db := store.db.(users := store.db.users + [user]);
    r := store.SaveContact(role, None, user);
  }

  /** `update` of a contact serializer on the store, given the nested user
      of the validated data. */
  method UpdateContact(store: Store, instance: Contact, user: Option<UserData>) returns (r: Result<Contact>)
    requires store.db.Valid()
    modifies store
    ensures store.db.Valid()
    ensures Saved(store.db, r) == UpdateContactRequest(old(store.db), instance, user)
  {
    if user.None? {
      return Err(KeyError("user"));
    }
    var fields := user.value;
    if "username" !in fields {
      return Err(KeyError("username"));
    }
    var found := GetByKey(store.db.users, UsernameOf, fields["username"]);
    if found.Err? {
      return Err(found.error);
    }
    if "password" !in fields {
      return Err(KeyError("password"));
    }
    UpdateContactKeepsValid(store.db, instance, fields["username"], fields["password"]);
    var updated := found.value.(password := fields["password"]);
    store.db := store.db.(users := SaveUser(store.db.users, updated));
    r := Ok(instance.(user := found.value.id));
  }
}
