/** The exceptions the pipeline can raise, and the messages they carry. */
module Exceptions {

  datatype Exception =
    | ApiError(matched: string)   // thrown by DownloadSeriesData on an error element in the response
    | HttpFailure                 // the request itself failed
    | XmlMalformed                // the XML reader rejected the document
    | FileMissing                 // the cached document could not be opened
    | NullReference               // a member was read through a null reference
    | ArgumentNull                // a dictionary was asked about a null key
    | IndexOutOfRange             // a character was read past the end of a string

  /** The text `DownloadSeriesData` puts before the matched error element. */
  const ApiErrorPrefix: string := "AniDB API error "

  /**
   * `Exception.Message`. The runtime's own exceptions are represented by
   * their type names: their texts come from the framework, not from this
   * code, and none of them holds an AniDB error element.
   */
  function Message(e: Exception): string {
    match e
    case ApiError(m) => ApiErrorPrefix + m
    case HttpFailure => "HttpRequestException"
    case XmlMalformed => "XmlException"
    case FileMissing => "FileNotFoundException"
    case NullReference => "NullReferenceException"
    case ArgumentNull => "ArgumentNullException"
    case IndexOutOfRange => "IndexOutOfRangeException"
  }
}
