/** Outcomes shared by the whole model: an optional value, and the result of a
    step that may raise one of the exceptions the CRM backend lets escape. */
module Results {

  datatype Option<+T> = None | Some(value: T)

  /** The exceptions the modelled code raises or lets propagate. */
  datatype Failure =
    | PermissionDenied                              // rest_framework.exceptions.PermissionDenied
    | NotFound                                      // Http404 from get_object_or_404
    | DoesNotExist                                  // Model.DoesNotExist from objects.get
    | MultipleObjectsReturned                       // objects.get matching several rows
    | KeyError(key: string)                         // a missing dictionary key
    | ValueError                                    // a value of the right type that does not convert
    | TypeError                                     // a value of a type that does not convert at all
    | IntegrityError                                // a unique constraint of the database
    | ValidationError(detail: string, code: string) // serializers.ValidationError

  datatype Result<+T> = Ok(value: T) | Err(error: Failure)
}
