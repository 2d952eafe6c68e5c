/** `route_permissions(permission_required)`: wraps a view method so that it
    runs only for a user holding `permission_required`; anyone else gets
    PermissionDenied and the method is not called. */
module Decorators {
  import opened Results
  import opened Auth

  /** The wrapped method. `S` is everything the method may read or change
      (the view, its request and the stored data), `A` its arguments;
      `userOf` picks `self.request.user` out of `S`. */
  function RoutePermissions<S(!new), A(!new), R>(permission: string, userOf: S -> Account, body: (S, A) -> (S, R)): (wrapped: (S, A) -> (S, Result<R>))
    ensures forall s, a :: HasPerm(userOf(s), permission) ==> wrapped(s, a) == (body(s, a).0, Ok(body(s, a).1))
    ensures forall s, a :: !HasPerm(userOf(s), permission) ==> wrapped(s, a) == (s, Err(PermissionDenied))
  {
    (s: S, a: A) =>
      if HasPerm(userOf(s), permission) then
        var (s', result) := body(s, a);
        (s', Ok(result))
      else (s, Err(PermissionDenied))
  }

  /** Whether the method runs depends on who is asking and on the permission,
      never on the arguments or on the rest of the state; a refusal changes
      nothing. */
  lemma DecisionIgnoresArguments<S(!new), A(!new), R>(permission: string, userOf: S -> Account, body: (S, A) -> (S, R),
    s1: S, a1: A, s2: S, a2: A)
    requires userOf(s1) == userOf(s2)
    ensures RoutePermissions(permission, userOf, body)(s1, a1).1.Ok?
        <==> RoutePermissions(permission, userOf, body)(s2, a2).1.Ok?
    ensures RoutePermissions(permission, userOf, body)(s1, a1).1.Err? ==>
      RoutePermissions(permission, userOf, body)(s1, a1).0 == s1
  {
  }

  /** A logged-out user never gets past the guard. */
  lemma LoggedOutNeverRuns<S(!new), A(!new), R>(permission: string, userOf: S -> Account, body: (S, A) -> (S, R), s: S, a: A)
    requires userOf(s) == Anonymous
    ensures RoutePermissions(permission, userOf, body)(s, a) == (s, Err(PermissionDenied))
  {
  }
}
