/** Result codes the report service hands back to the controller. */
module Constants {

  /** The kinds the report code uses: a success, the business rule "one report per
      employee and date", and a storage-level duplicate the controller translates. */
  datatype ErrorKinds = Success | DatecheckError | DuplicateExceptionError

  /** ErrorMessage.contains: a kind has a user-facing message exactly when it is not
      a success. */
  predicate HasMessage(kind: ErrorKinds)
  {
    kind != Success
  }
}
