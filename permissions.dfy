/** `ContractPermission`: whether the user behind a request may perform a view
    action on one stored contract. Changing a contract needs
    `crm_api.change_contract`, except that an update leaving the amount and
    the payment date as stored is a status change, which
    `crm_api.change_contract_status` suffices for. */
module Permissions {
  import opened Results
  import opened Auth
  import opened Models
  import opened Payload

  /** `_perms`: the permission each view action needs. */
  const ContractPerms: map<string, string> := map[
    "create" := "crm_api.add_contract",
    "update" := "crm_api.change_contract",
    "partial_update" := "crm_api.change_contract",
    "retrieve" := "crm_api.view_contract",
    "list" := "crm_api.view_contract",
    "destroy" := "crm_api.delete_contract"]

  const ChangeContract: string := "crm_api.change_contract"
  const ChangeContractStatus: string := "crm_api.change_contract_status"

  /** The amount assumed when the payload has none or it does not parse: -1.00. */
  const MissingAmount: int := -100

  /** The actions that change a stored contract. */
  predicate IsUpdate(action: string) {
    action == "update" || action == "partial_update"
  }

  /** The values `float` refuses with a TypeError rather than a ValueError:
      null, an array and an object. */
  predicate FloatRejects(v: Json) {
    v.JNull? || v.JArray? || v.JObject?
  }

  /** The payload's amount is one `float` raises a TypeError on. */
  predicate AmountRejected(data: Data) {
    "amount" in data && FloatRejects(data["amount"])
  }

  /** The submitted amount in hundredths, -1.00 when there is none or it does
      not convert. `parseAmount` stands for `float(...)` followed by the exact
      comparison with the stored decimal; None is a ValueError. */
  function SubmittedAmount(data: Data, parseAmount: Json -> Option<int>): int {
    if "amount" in data && !FloatRejects(data["amount"]) && parseAmount(data["amount"]).Some? then
      parseAmount(data["amount"]).value
    else MissingAmount
  }

  /** `change_contract_status_only`: the payload keeps the stored amount and
      payment date and the user may change a contract's status. An amount
      `float` refuses with a TypeError escapes the ValueError and KeyError
      handlers. The payment date is read only once the amounts agree, and a
      missing one is then a KeyError. `isoZ` renders a timestamp as
      `%Y-%m-%dT%H:%M:%SZ`. */
  function ChangeContractStatusOnly(
    account: Account, data: Data, obj: Contract,
    parseAmount: Json -> Option<int>, isoZ: Timestamp -> string): (r: Result<bool>)
    ensures r.Err? <==>
      AmountRejected(data) || (SubmittedAmount(data, parseAmount) == obj.amount && "payment_due" !in data)
    ensures AmountRejected(data) ==> r == Err(TypeError)
    ensures !AmountRejected(data) && r.Err? ==> r.error == KeyError("payment_due")
    ensures r == Ok(true) ==>
      && SubmittedAmount(data, parseAmount) == obj.amount
      && data["payment_due"] == JStr(isoZ(obj.paymentDue))
      && HasPerm(account, ChangeContractStatus)
    ensures !AmountRejected(data) && SubmittedAmount(data, parseAmount) != obj.amount ==> r == Ok(false)
  {
    if AmountRejected(data) then Err(TypeError)
    else if SubmittedAmount(data, parseAmount) != obj.amount then Ok(false)
    else
      match Field(data, "payment_due")
      case Err(e) => Err(e)
      case Ok(due) => Ok(due == JStr(isoZ(obj.paymentDue)) && HasPerm(account, ChangeContractStatus))
  }

  /** `has_object_permission`: the user must be logged in and, for an update,
      either pass the status-only check or hold the action's permission; for
      any other action hold the action's permission. An action with no entry
      in `_perms` is a KeyError. */
  function HasObjectPermission(
    account: Account, action: string, data: Data, obj: Contract,
    parseAmount: Json -> Option<int>, isoZ: Timestamp -> string): (r: Result<bool>)
    ensures r == Ok(true) ==> account.IsAuthenticated()
    ensures action !in ContractPerms ==> r == Err(KeyError(action))
    ensures action in ContractPerms && !IsUpdate(action) ==> r == Ok(HasPerm(account, ContractPerms[action]))
    ensures IsUpdate(action) ==>
      (r.Err? <==> AmountRejected(data) || (SubmittedAmount(data, parseAmount) == obj.amount && "payment_due" !in data))
    ensures IsUpdate(action) && AmountRejected(data) ==> r == Err(TypeError)
    ensures IsUpdate(action) && HasPerm(account, ChangeContract) && r.Ok? ==> r.value
  {
    var authenticated := account.IsAuthenticated();
    if IsUpdate(action) then
      match ChangeContractStatusOnly(account, data, obj, parseAmount, isoZ)
      case Err(e) => Err(e)
      case Ok(statusOnly) =>
        GrantsNeedLogin(account, ContractPerms[action]);
        Ok(authenticated && (statusOnly || HasPerm(account, ContractPerms[action])))
    else if action in ContractPerms then
      GrantsNeedLogin(account, ContractPerms[action]);
      Ok(authenticated && HasPerm(account, ContractPerms[action]))
    else Err(KeyError(action))
  }

  lemma GrantsNeedLogin(account: Account, perm: string)
    ensures HasPerm(account, perm) ==> account.IsAuthenticated()
  {
    if HasPerm(account, perm) {
      GrantedImpliesAuthenticated(account, perm);
    }
  }

  // ---------------------------------------------------------------------------
  // Properties

  /** Nobody who is logged out is granted anything. */
  lemma LoggedOutRefused(action: string, data: Data, obj: Contract,
    parseAmount: Json -> Option<int>, isoZ: Timestamp -> string)
    ensures HasObjectPermission(Anonymous, action, data, obj, parseAmount, isoZ) != Ok(true)
  {
  }

  /** The status-only check only ever widens update and partial_update: any
      other action is granted exactly when its own permission is held. */
  lemma StatusOnlyConfinedToUpdates(account: Account, action: string, data: Data, obj: Contract,
    parseAmount: Json -> Option<int>, isoZ: Timestamp -> string)
    requires action in {"create", "retrieve", "list", "destroy"}
    ensures HasObjectPermission(account, action, data, obj, parseAmount, isoZ) == Ok(HasPerm(account, ContractPerms[action]))
  {
  }

  /** An update is granted to someone without `change_contract` exactly when
      the submitted amount and payment date equal the stored ones and the user
      holds `change_contract_status`. */
  lemma StatusOnlyGrant(account: Account, action: string, data: Data, obj: Contract,
    parseAmount: Json -> Option<int>, isoZ: Timestamp -> string)
    requires IsUpdate(action) && !HasPerm(account, ChangeContract)
    ensures HasObjectPermission(account, action, data, obj, parseAmount, isoZ) == Ok(true) <==>
      && !AmountRejected(data)
      && SubmittedAmount(data, parseAmount) == obj.amount
      && "payment_due" in data && data["payment_due"] == JStr(isoZ(obj.paymentDue))
      && HasPerm(account, ChangeContractStatus)
  {
    if HasObjectPermission(account, action, data, obj, parseAmount, isoZ) == Ok(true) {
      assert ChangeContractStatusOnly(account, data, obj, parseAmount, isoZ) == Ok(true);
    }
    if HasPerm(account, ChangeContractStatus) {
      GrantedImpliesAuthenticated(account, ChangeContractStatus);
    }
  }

  /** A missing amount, or one `float` refuses with a ValueError, is taken as
      -1.00, so the status-only check then fails unless the stored amount is
      exactly -1.00. */
  lemma UnreadableAmountIsMinusOne(account: Account, data: Data, obj: Contract,
    parseAmount: Json -> Option<int>, isoZ: Timestamp -> string)
    requires "amount" !in data || (!FloatRejects(data["amount"]) && parseAmount(data["amount"]).None?)
    requires obj.amount != MissingAmount
    ensures ChangeContractStatusOnly(account, data, obj, parseAmount, isoZ) == Ok(false)
  {
  }

  // ---------------------------------------------------------------------------
  // The payment date read that can fail

  /** A staff member, who holds `change_contract`, sends a partial update that
      changes only the status and repeats the stored amount: the status-only
      check looks up the absent payment date and the request fails with a
      KeyError instead of being granted. */
  lemma PartialUpdateWithoutPaymentDueFails(isoZ: Timestamp -> string)
    ensures
      var staff := Member(User(1, "staff_contact_01", "pw", true, false, true, {"STAFF"}));
      var obj := Contract(1, 1, 1, false, 100000, Timestamp(0));
      var data := map["status" := JBool(true), "amount" := JStr("1000.00")];
      var parseAmount := (j: Json) => if j == JStr("1000.00") then Some(100000) else None;
      && HasPerm(staff, ChangeContract)
      && HasObjectPermission(staff, "partial_update", data, obj, parseAmount, isoZ) == Err(KeyError("payment_due"))
  {
    var staff := Member(User(1, "staff_contact_01", "pw", true, false, true, {"STAFF"}));
    SeededGroupContents();
    GroupGrants(staff.user, "STAFF", ChangeContract);
  }

  // ---------------------------------------------------------------------------
  // The amount conversion that can fail

  /** A staff member, who holds `change_contract`, sends a partial update with
      a null amount: `float(None)` raises a TypeError, which neither handler
      catches, and the request fails instead of being granted. */
  lemma NullAmountFails(isoZ: Timestamp -> string, parseAmount: Json -> Option<int>)
    ensures
      var staff := Member(User(1, "staff_contact_01", "pw", true, false, true, {"STAFF"}));
      var obj := Contract(1, 1, 1, false, 100000, Timestamp(0));
      var data := map["status" := JBool(true), "amount" := JNull];
      && HasPerm(staff, ChangeContract)
      && HasObjectPermission(staff, "partial_update", data, obj, parseAmount, isoZ) == Err(TypeError)
  {
    var staff := Member(User(1, "staff_contact_01", "pw", true, false, true, {"STAFF"}));
    SeededGroupContents();
    GroupGrants(staff.user, "STAFF", ChangeContract);
  }

  // ---------------------------------------------------------------------------
  // Both reads corrected

  /** The status-only check taking an amount `float` refuses, whatever the
      exception, as -1.00, and reading the payment date with a default, so
      that an absent one simply differs from the stored date. */
  function ChangeContractStatusOnlyCorrected(
    account: Account, data: Data, obj: Contract,
    parseAmount: Json -> Option<int>, isoZ: Timestamp -> string): (r: bool)
    ensures !AmountRejected(data) && r ==> ChangeContractStatusOnly(account, data, obj, parseAmount, isoZ) == Ok(true)
    ensures AmountRejected(data) ==>
      (r <==>
        && obj.amount == MissingAmount
        && "payment_due" in data && data["payment_due"] == JStr(isoZ(obj.paymentDue))
        && HasPerm(account, ChangeContractStatus))
    ensures ChangeContractStatusOnly(account, data, obj, parseAmount, isoZ) == Ok(r)
      || ChangeContractStatusOnly(account, data, obj, parseAmount, isoZ).Err?
  {
    && SubmittedAmount(data, parseAmount) == obj.amount
    && "payment_due" in data && data["payment_due"] == JStr(isoZ(obj.paymentDue))
    && HasPerm(account, ChangeContractStatus)
  }

  /** `has_object_permission` over the corrected status-only check. */
  function HasObjectPermissionCorrected(
    account: Account, action: string, data: Data, obj: Contract,
    parseAmount: Json -> Option<int>, isoZ: Timestamp -> string): (r: Result<bool>)
    ensures r == Ok(true) ==> account.IsAuthenticated()
    ensures r.Err? <==> action !in ContractPerms
    ensures r.Err? ==> r.error == KeyError(action)
  {
    if IsUpdate(action) then
      var statusOnly := ChangeContractStatusOnlyCorrected(account, data, obj, parseAmount, isoZ);
      GrantsNeedLogin(account, ContractPerms[action]);
      GrantsNeedLogin(account, ChangeContractStatus);
      Ok(account.IsAuthenticated() && (statusOnly || HasPerm(account, ContractPerms[action])))
    else if action in ContractPerms then
      GrantsNeedLogin(account, ContractPerms[action]);
      Ok(account.IsAuthenticated() && HasPerm(account, ContractPerms[action]))
    else Err(KeyError(action))
  }

  /** With the correction a holder of `change_contract` may update a contract
      whatever the payload, and every answer the original gives is kept. */
  lemma CorrectedGrantsChangeContract(account: Account, action: string, data: Data, obj: Contract,
    parseAmount: Json -> Option<int>, isoZ: Timestamp -> string)
    ensures IsUpdate(action) && HasPerm(account, ChangeContract) ==>
      HasObjectPermissionCorrected(account, action, data, obj, parseAmount, isoZ) == Ok(true)
    ensures HasObjectPermission(account, action, data, obj, parseAmount, isoZ).Ok? ==>
      HasObjectPermissionCorrected(account, action, data, obj, parseAmount, isoZ)
        == HasObjectPermission(account, action, data, obj, parseAmount, isoZ)
  {
    GrantsNeedLogin(account, ChangeContract);
  }
}
