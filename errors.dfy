/** The exceptions of the tap, as values. */
module Errors {
  import opened Wrappers
  import opened Http

  datatype TapError =
    | InvalidEndpoint(endpoint: string)        // get_url: name not in the endpoint table
    | UnparsableUrl(url: string)               // parse_source_from_url: no source segment
    | MissingKey(key: string)                  // a dict or format lookup of an absent key
    | NotAMap(property: string)                // transform_contact on a property that is not a map
    | NotATimestamp(field: string)             // a timestamp that is not integer milliseconds
    | NotAString(field: string)                // a URL component that is not a string
    | RequestFailed(exc: RequestException)     // request() raised after its retries
    | UnknownStream(current: Option<string>)   // get_streams_to_sync found nothing to resume
}
