# CRM access rules and writes, in Dafny

This project models the core of a small CRM backend built on Django and Django REST
framework. The backend stores clients, contracts and events, and three kinds of
contact (sales, support, staff), each linked one-to-one to a login user. The model
covers:

- **Profiles and filters** (`filters.dfy`). The profile of a request's user is
  built from the contacts it owns. The client, contract and event listings are
  narrowed to what that profile may see, ordered by id, or refused with
  PermissionDenied.
- **Contract object permission** (`permissions.dfy`). Changing a contract needs
  `crm_api.change_contract`. An update that keeps the stored amount and payment
  date also passes with `crm_api.change_contract_status`.
- **The `route_permissions` decorator** (`decorators.dfy`). It runs a view method
  only for a user who holds the required permission.
- **Entities** (`models.dfy`). This covers their column bounds, the event-status
  choices, the `__str__` forms, and the contact save. Saving a contact stores its
  user and puts that user into the group of its role.
- **Serializers** (`serializers.dfy`). `validate` and `save` for clients,
  contracts and events resolve the ids in the payload with
  `get_object_or_404`. `create` and `update` handle the three contact kinds.

Shared modules:

- `results.dfy`: the outcomes and the exceptions that can end an operation.
- `querysets.dfy`: the query operations the code uses. These are `filter`,
  `order_by`, `values`, `get`, and saving a row under its key.
- `text.dfy`: the text conversions. These are `str` of integers, booleans and
  two-place decimals, and `int()` of a string.
- `auth.dfy`: users, `has_perm`, and the permissions the database loader gives
  each group.
- `payload.dfy`: a request's data and the conversion of a payload value to a
  primary key.

**The database.** It is a value (`Models.Database`) whose invariant `Valid()`
holds the schema's guarantees: unique keys, unique usernames and e-mails,
one-to-one contact links, foreign keys that resolve, and bounded columns. The
writes are methods on `Models.Store`, the object holding the current database:

- `Models.Store.SaveContact`
- `Serializers.SaveClient`, `Serializers.SaveContract`, `Serializers.SaveEvent`
- `Serializers.CreateContact`, `Serializers.UpdateContact`

Each method is proved equal to a specification function on database values
(for example `SaveContactSpec`). Each also keeps `Valid()`. The properties are
proved about those functions.

**Inputs passed as parameters.** Things that sit outside the code's own logic are
parameters:

- the rendering of a timestamp (`isoZ` for `strftime("%Y-%m-%dT%H:%M:%SZ")`,
  `show` for `str(datetime)`);
- the parsing of an amount with `float` (`parseAmount`).

**Profile resolution.** Profile resolution (filters.py:23-42) looks up all
three contact tables, staff first. A duplicated link in any of them raises
MultipleObjectsReturned. The filters give staff priority over sales, and sales
over support.

## Model

| member | source | states |
|---|---|---|
| Filters.ContactOf | crm/crm_api/filters.py:28-31 | `get(user=...)` on one contact table: DoesNotExist becomes "no contact" exactly when no row links the user; a found row belongs to the user; only MultipleObjectsReturned escapes, and never when links are unique |
| Filters.ResolveProfile | crm/crm_api/filters.py:23-42 | each profile flag holds exactly when the user owns a contact of that kind (staff also for a superuser); the staff, sales and support contacts found are stored rows linked to the user; the only failure is MultipleObjectsReturned, impossible when each table links a user at most once |
| Filters.ProfileResolves | crm/crm_api/filters.py:23-42 | on a database satisfying the schema, building a profile never fails |
| Filters.ClientFilter | crm/crm_api/filters.py:99-127 | refuses with PermissionDenied exactly a profile with no role; otherwise returns, as a multiset, exactly the queryset's clients visible to the profile (staff all; sales its own; support those of its events), sorted by id and strictly ascending when ids are distinct |
| Filters.ContractFilter | crm/crm_api/filters.py:135-158 | refuses exactly a profile that is neither staff nor sales; otherwise returns exactly the visible contracts (staff all; sales those it follows or whose client it owns), sorted by id |
| Filters.EventFilter | crm/crm_api/filters.py:166-198 | refuses exactly a profile with no role; otherwise returns exactly the visible events (staff all; sales those of clients it owns or follows a contract of; support those assigned to it), sorted by id |
| Filters.SalesEvents | crm/crm_api/filters.py:176-192 | the sales branch of the event filter returns exactly the events whose client the sales contact owns or follows a contract of, sorted by id |
| Filters.StaffSeesEverything | crm/crm_api/filters.py:106-108 | a staff profile, including a superuser with no StaffContact, gets every row of the queryset from all three filters |
| Filters.FiltersNarrow | crm/crm_api/filters.py:99-198 | each filter only ever returns rows of the queryset it was given |
| Filters.RolePriority | crm/crm_api/filters.py:104-124 | staff is tried before sales and sales before support: other roles do not change what staff or a sales contact sees |
| Filters.SupportCannotListContracts | crm/crm_api/filters.py:156-158 | a support contact with no other role is refused the contract listing |
| Permissions.ChangeContractStatusOnly | crm/crm_api/permissions.py:20-36 | fails with TypeError when the amount is null, an array or an object, which `float` refuses and no handler catches; otherwise fails with KeyError("payment_due") exactly when the submitted amount (-1.00 when missing or refused with ValueError) equals the stored one and the payload has no payment date; grants only when amount and payment date match and the user holds change_contract_status; a differing amount answers false |
| Permissions.HasObjectPermission | crm/crm_api/permissions.py:38-52 | a grant implies a logged-in user; an action outside the table is KeyError; other actions are granted exactly when their permission is held; an update fails exactly as the status-only check does (TypeError for a null, array or object amount) and is granted to a holder of change_contract whenever it does not fail |
| Permissions.LoggedOutRefused | crm/crm_api/permissions.py:43-52 | a logged-out request is never granted |
| Permissions.StatusOnlyConfinedToUpdates | crm/crm_api/permissions.py:45-51 | create, retrieve, list and destroy are decided by their own permission alone |
| Permissions.StatusOnlyGrant | crm/crm_api/permissions.py:31-49 | without change_contract, an update is granted exactly when the amount is one `float` accepts, the amount and payment date equal the stored ones and change_contract_status is held |
| Permissions.UnreadableAmountIsMinusOne | crm/crm_api/permissions.py:24-30 | a missing amount, or one `float` refuses with ValueError, counts as -1.00, so the status-only check answers false unless -1.00 is stored |
| Permissions.PartialUpdateWithoutPaymentDueFails | crm/crm_api/permissions.py:31-36 | a staff member holding change_contract sends a partial update with the stored amount and no payment date, and gets KeyError instead of a grant |
| Permissions.NullAmountFails | crm/crm_api/permissions.py:24-30 | a staff member holding change_contract sends a partial update with a null amount, and gets TypeError instead of a grant |
| Permissions.ChangeContractStatusOnlyCorrected | crm/crm_api/permissions.py:24-36 | the status-only check with an amount `float` refuses with TypeError read as -1.00 and an absent payment date read as "differs": for an amount `float` accepts it grants only what the original grants; for a refused one it grants exactly when -1.00 is stored, the payment date matches and change_contract_status is held; it agrees with the original wherever the original answers |
| Permissions.HasObjectPermissionCorrected | crm/crm_api/permissions.py:38-52 | with the corrected check, the decision fails only for an action outside the table, and a grant still implies a logged-in user |
| Permissions.CorrectedGrantsChangeContract | crm/crm_api/permissions.py:24-49 | with both corrections, a holder of change_contract may update whatever the payload, a null amount or a missing payment date included, and every answer the original gives is kept |
| Decorators.RoutePermissions | crm/crm_api/decorators.py:7-28 | a wrapped method runs with its own effect and result when the user holds the permission; otherwise it does not run, changes nothing and gives PermissionDenied |
| Decorators.DecisionIgnoresArguments | crm/crm_api/decorators.py:17-24 | whether the method runs depends only on the user, never on the arguments; a refusal leaves the state as it was |
| Decorators.LoggedOutNeverRuns | crm/crm_api/decorators.py:21-24 | a logged-out user is always refused |
| Auth.GroupGrants | crm/crm_api/management/commands/loaddatabase.py:29-43 | a member of a group holds the group's permissions exactly when the account is active |
| Auth.SeededGroupContents | crm/crm_api/management/commands/loaddatabase.py:29-43 | STAFF holds change_contract; SALES holds change_contract_status but not change_contract; SUPPORT holds only its three permissions |
| Models.GroupOf | crm/crm_api/models.py:27 | a sales contact's save joins SALES, a staff contact's STAFF and a support contact's SUPPORT, all groups the loader creates |
| Models.StatusFromCode | crm/crm_api/models.py:136-139 | a code reads back as the choice with that code, and only unknown codes read as none |
| Models.StatusCodeRoundTrip | crm/crm_api/models.py:136-139 | every choice's code reads back as that choice, so codes are distinct |
| Models.StatusDisplay | crm/crm_api/models.py:145-146 | `get_status_display()` is the label of a known code and the stored text otherwise |
| Models.ClientToString | crm/crm_api/models.py:107-108 | first name, then one space, then last name |
| Models.ContactToString | crm/crm_api/models.py:32-33 | the username of the contact's own user, always found when user keys are unique and the user exists |
| Models.ContractToString | crm/crm_api/models.py:124-128 | defined for every stored contract of a valid database; the text is the stored client's name, the username of the stored user behind the stored sales contact, the status as True/False, the amount with two decimals and the rendered payment date, each separated by a vertical bar with a space on both sides |
| Models.EventToString | crm/crm_api/models.py:163-167 | defined for every stored event of a valid database; the text is the stored client's name, the username of the stored user behind the stored support contact, the label of the stored status, the attendee count and the rendered event date, each separated by a vertical bar with a space on both sides |
| Models.ContractRowsResolve | crm/crm_api/models.py:124-128 | the rows a stored contract refers to, and its contact's user, can be fetched |
| Models.EventRowsResolve | crm/crm_api/models.py:163-167 | the rows a stored event refers to, and its contact's user, can be fetched |
| Models.StringFormsExamples | crm/crm_api/tests/test_models.py:238-245 | on the rows of the model test, the contract renders as the test expects: client "test client", username "test_sales_contact", "True", "1000.00" and the payment date, joined by the separator |
| Models.EventStringExample | crm/crm_api/tests/test_models.py:334-341 | on the rows of the model test, the event renders as the test expects: "test client", "test_support_contact", "CREATED", "100" and the event date |
| Models.SaveContactOutcome | crm/crm_api/models.py:18-30 | a contact save succeeds exactly when the username is not another user's, the role's group exists, and the user has no other contact of that kind |
| Models.SaveContactJoinsGroup | crm/crm_api/models.py:24-27 | after a successful save the user's groups are its old groups plus the role's group |
| Models.SaveContactGroupIdempotent | crm/crm_api/models.py:27 | a user already in the role's group keeps exactly its groups |
| Models.SaveContactKeepsOtherUsers | crm/crm_api/models.py:24-27 | every other user's row is unchanged, whatever the outcome |
| Models.SaveContactKeepsValid | crm/crm_api/models.py:18-30 | a contact save keeps the schema's guarantees, whatever the outcome |
| Models.Store.SaveContact | crm/crm_api/models.py:18-30 | the stored database and result are those of the save specification, and the schema's guarantees still hold |
| Payload.PkOf | crm/crm_api/serializers.py:176-178 | an integer names itself, a boolean 1 or 0, a number with a fraction the integer it truncates to toward zero, a null no row, and a string the integer it parses to; a string that does not parse is ValueError, and an array or object TypeError, and nothing else fails |
| Payload.PkOfRenderedId | crm/crm_api/serializers.py:176-178 | an id sent as its decimal text names the same row as the id itself |
| Serializers.Resolve | crm/crm_api/serializers.py:176-178 | `get_object_or_404`: KeyError when the field is missing, ValueError exactly when its value is a string that is no integer, TypeError exactly when it is an array or object, NotFound exactly when no row has that key; a found row is in the table under that key |
| Serializers.ValidateClient | crm/crm_api/serializers.py:162-170 | fails exactly when the raw payload has no sales_contact_id, with that message and code "invalid"; otherwise passes the data through |
| Serializers.ValidateContract | crm/crm_api/serializers.py:195-207 | passes exactly when both ids are present; a missing sales contact is reported before a missing client |
| Serializers.ValidateEvent | crm/crm_api/serializers.py:259-271 | fails with one message exactly when either the support contact id or the client id is missing |
| Serializers.SaveClientSpec | crm/crm_api/serializers.py:172-179 | fails with the lookup's error (KeyError, ValueError, NotFound) when the payload's sales contact does not resolve, else with IntegrityError exactly when another client has the e-mail; a failed save changes nothing; a saved client carries the row's fields, the sales contact the payload names and the given or a fresh key, is stored, and every other client and table is kept |
| Serializers.SaveContractSpec | crm/crm_api/serializers.py:209-218 | succeeds exactly when the sales contact and then the client resolve, else fails with the first lookup's error and changes nothing; a saved contract carries the row's fields, the sales contact and client the payload names and the given or a fresh key, is stored, and every other contract and table is kept |
| Serializers.SaveEventSpec | crm/crm_api/serializers.py:273-289 | succeeds exactly when the support contact, the client and the event status resolve in that order, else fails with the first lookup's error and changes nothing; a saved event carries the row's fields, the three rows the payload names and the given or a fresh key, is stored, and every other event and table is kept |
| Serializers.ValidatedSavesHaveTheirIds | crm/crm_api/serializers.py:162-218 | after validation on a valid database, a client save fails only with ValueError, TypeError, NotFound or IntegrityError and a contract save only with ValueError, TypeError or NotFound, never KeyError |
| Serializers.EventStatusIdUnchecked | crm/crm_api/serializers.py:259-289 | validation lets through an event payload without event_status_id, and the save then fails with KeyError and changes nothing |
| Serializers.NewStaffUser | crm/crm_api/serializers.py:65-67 | the created user has a fresh key, is marked staff and active, and is in no group |
| Serializers.CreateContactEffect | crm/crm_api/serializers.py:60-68 | a created contact belongs to a new staff user with the given username, in the role's group alone, and is stored in the role's table |
| Serializers.UpdateContactOutcome | crm/crm_api/serializers.py:70-79 | an update fails with DoesNotExist exactly when no user has the username, and otherwise returns the contact pointing at that user |
| Serializers.UpdateContactEffect | crm/crm_api/serializers.py:74-77 | the user with that username gets the new password; no other user and no other table changes |
| Serializers.SaveClientKeepsValid | crm/crm_api/serializers.py:172-179 | a client save keeps the schema's guarantees |
| Serializers.SaveContractKeepsValid | crm/crm_api/serializers.py:209-218 | a contract save keeps the schema's guarantees |
| Serializers.SaveEventKeepsValid | crm/crm_api/serializers.py:273-289 | an event save keeps the schema's guarantees |
| Serializers.CreateContactKeepsValid | crm/crm_api/serializers.py:60-68 | a contact creation keeps the schema's guarantees, whatever the outcome |
| Serializers.UpdateContactRequest | crm/crm_api/serializers.py:70-79 | a missing nested user is KeyError("user"), a missing username KeyError("username"), an unknown username the lookup's error, and a missing password, read only after the lookup, KeyError("password"); with both fields the update is the one above; a failure changes nothing |
| Serializers.UpdateContactKeepsValid | crm/crm_api/serializers.py:70-79 | a contact update keeps the schema's guarantees, whatever the outcome |
| Serializers.SaveClient | crm/crm_api/serializers.py:172-179 | the store ends as the client save specification says and stays valid |
| Serializers.SaveContract | crm/crm_api/serializers.py:209-218 | the store ends as the contract save specification says and stays valid |
| Serializers.SaveEvent | crm/crm_api/serializers.py:273-289 | the store ends as the event save specification says and stays valid |
| Serializers.CreateContact | crm/crm_api/serializers.py:60-68 | the store ends as the contact creation specification says and stays valid |
| Serializers.UpdateContact | crm/crm_api/serializers.py:70-79 | given the nested user of the request, the store ends as the contact update specification says and stays valid |

## Left out

- HTTP, routing, the views and viewsets, the admin, the URL table, migrations and the management commands are not modelled. The one exception is the group table the database loader creates, which is fixed in `Auth.GroupPermissions`.
- The ORM is modelled only as the sequence operations in `querysets.dfy`. Transactions are not modelled, and every write commits as it happens. Cascading deletes are not modelled because deletion is not part of the core.
- Rendering dates (`strftime`, `str(datetime)`) and parsing an amount with `float` are parameters. The TypeError `float` raises on null, an array or an object is modelled; on a string that does not parse, the parameter answers None for the ValueError. The binary rounding of `float` against the stored `Decimal` is not modelled: amounts are whole hundredths and compared exactly.
- Permissions.ChangeContractStatusOnly: does not distinguish a `float` that parses to a value other than the stored decimal because of binary rounding; `parseAmount` stands for that comparison.
- `auto_now` timestamps, password hashing and token handling are not modelled. A password is stored as given.
- Filters.ResolveProfile: takes a stored user. For a request by Django's anonymous user, the staff-contact lookup at filters.py:29 fails before any `is_anonymous` branch is reached; that failure is not modelled.
- Payload.PkOf: `int()` also accepts surrounding whitespace and digit separators (`" 7"`, `"1_0"`). The model rejects those as ValueError. A JSON number with a fraction is taken at its exact decimal value; the rounding of a long literal to a binary `float` before `int()` truncates it is not modelled.
- Auth.HasPerm: grants through group membership only. Django's `has_perm` also grants permissions given to the user directly (`user_permissions`); no code in this repository assigns any (only the admin site could), so they are not modelled.
- The model field validators (e-mail format, phone format) and DRF's unique-e-mail validator are not modelled. A duplicate e-mail is caught as IntegrityError at save. Column lengths and non-blank names are assumed checked before `save`, which the save methods and lemmas take as `row.WithinBounds()`.
- Serializers.UpdateContactSpec: the contact row is not written. DRF's `save()` returns the instance that `update` returns without persisting it, so the assignment `instance.user = user_instance` (serializers.py:78) is lost in the program itself; the model returns the reassigned contact and leaves the stored row as it was.
- Serializers.CreateContactSpec: takes the username and password as given. A create is never partial and the nested user serializer requires both fields, so the KeyError and TypeError that `create` would raise without them (serializers.py:65-67) cannot arise; the same failures on a partial update are modelled by `Serializers.UpdateContactRequest`. The NFKC normalisation `create_user` applies to the username is not modelled: the username is stored as given.
- The serializers' `to_representation` and the nested `UserSerializer`/`GroupSerializer` field lists are not modelled. They only choose which fields appear in a response.

## Findings

| source | as written | input that shows it | evidently intended | confidence | as-written member | corrected member |
|---|---|---|---|---|---|---|
| crm/crm_api/permissions.py:31-36 | `change_contract_status_only` reads `request.data["payment_due"]` as soon as the amounts agree. `has_object_permission` calls it before checking `change_contract` (permissions.py:46-49), so a missing payment date raises KeyError for every user | a staff user in STAFF sends a partial update of a contract whose amount is 1000.00, with data `{"status": true, "amount": "1000.00"}` | an absent payment date makes the status-only check false, and a holder of `change_contract` is granted the update | not executed | Permissions.PartialUpdateWithoutPaymentDueFails | Permissions.CorrectedGrantsChangeContract |
| crm/crm_api/permissions.py:24-30 | the amount is converted with `float(request.data["amount"])` inside a `try` that catches only ValueError and KeyError, so the TypeError `float` raises on null, an array or an object escapes and the request fails for every user | a staff user in STAFF sends a partial update with data `{"status": true, "amount": null}` | an amount that cannot be converted is taken as -1.00, as the handlers intend, and a holder of `change_contract` is granted the update | not executed | Permissions.NullAmountFails | Permissions.CorrectedGrantsChangeContract |
