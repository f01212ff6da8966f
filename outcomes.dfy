/** The failures the site store reports, one per exception its Python code raises,
    and the Option/Result wrappers used for absent values and error paths. */
module Outcomes {

  datatype Option<+T> = None | Some(value: T)

  datatype Error =
    | NotSiteSectionKey     // TypeError: the key is not a SiteSectionIdentifier
    | UnregisteredResource  // TypeError: no type-tagged registry entry matches the key's resource
    | NoBackendForType      // KeyError: the resource passes isinstance, but its exact type is no registry key
    | UnsupportedResource   // ValueError: get_url_for_resource cannot resolve this argument
    | UnboundKeyTuples      // UnboundLocalError: the first backend of list_keys could not list
    | DecodeFailed          // an exception other than TypeError raised while decoding a listed tuple
    | NoStaticAnchor        // ValueError: an asset path has no "static" segment

  datatype Result<+T> = Success(value: T) | Failure(error: Error)
}
