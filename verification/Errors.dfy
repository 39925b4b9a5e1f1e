/** The API errors of services/errors.go that the modelled endpoints return. */
module Errors {
  datatype ApiError =
    | CurrencyNotDefined
    | DatastoreConsistency
    | Datastore
    | InvalidAccountAddress
    | InvalidBlockHash
    | InvalidBlockIdentifier
    | InvalidBlockIndex
    | InvalidConstructOptions
    | InvalidContractAddress
    | InvalidCurrency
    | InvalidGasLimit
    | InvalidGasPrice
    | InvalidOpsIntent
    | InvalidPayerAddress
    | InvalidRequestField
    | InvalidNonce
    | NonceGenerationFailed
    | OfflineMode
    | UnknownBlockHash
    | UnknownBlockIndex
}
