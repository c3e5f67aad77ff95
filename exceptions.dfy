/** The exceptions the services, mappers and controllers throw, one constructor per Java exception class. */
module Exceptions {

  datatype Exception =
    // users
    | UserNotFound
    | InvalidUsername
    | DuplicateUser
    | WeakPassword
    | InvalidRole
    | AdminLimitExceeded
    | BadCredentials
    // carts and orders
    | CartNotFound
    | CakeAlreadyInCart
    | CakeNotFound(cakeId: int)
    | OutOfStock
    | EmptyCart
    | SaleNotFound
    | OrderNotFound
    // categories
    | CategoryAlreadyExists
    | DuplicateCategory
    | CategoryNotFound
    // pastry chefs
    | PastryChefAlreadyExists
    | PastryChefNotFound
    // generic Java and persistence exceptions
    | EntityNotFound
    | IllegalArgument
    | IllegalState
    | NullPointer
    | DataIntegrityViolation
    | NonUniqueResult
    // a repository method declared to return a primitive whose query yields null
    | AopInvocation
}
