/** The exceptions a service call can end in, as values. */
module Exceptions {

  datatype Exception =
    /** `ResourceNotFoundException(resource, field, value)`: a lookup by id, email, ... found no record. */
    | ResourceNotFound(resource: string, field: string, value: string)
    /** `IllegalArgumentsException(message)`: what every listing turns a runtime failure into. */
    | IllegalArguments(message: string)
    /** `BadApiRequestException(message)`: an image name the upload refuses. */
    | BadApiRequest(message: string)
    /** `NoSuchElementException`: `Optional.get()` on an empty `Optional`. */
    | NoSuchElement
    /** `IncorrectResultSizeDataAccessException`: a single-result query matched several rows. */
    | IncorrectResultSize
    /** `StringIndexOutOfBoundsException` raised by `substring(index)`. */
    | StringIndexOutOfBounds(index: int)
    /** `DataIntegrityViolationException`: the database refused a delete that breaks a foreign key. */
    | DataIntegrityViolation

}
