/** Option and Result values, and the kinds of error the services raise. */
module Wrappers {

  datatype Option<+T> = None | Some(value: T)

  /** The exceptions of the services, plus the storage layer's refusal of a row. */
  datatype Error =
    | NotFound                // NotFoundException
    | BadRequest(count: nat)  // BadRequestException; count is the number of referencing rows
    | Conflict                // ConflictException
    | Unauthorized            // UnauthorizedException
    | StorageViolation        // a unique or foreign-key constraint of the schema rejected the save

  datatype Result<+T> = Ok(value: T) | Err(error: Error)

  /** JavaScript truthiness of an optional string: absent and "" are both falsy. */
  predicate Truthy(s: Option<string>) {
    s.Some? && s.value != ""
  }
}
