/**
 * The decision inside `get_image`: which HTTP status codes lead to decoding
 * the response body. The request itself and the decoder are parameters.
 */
module Fetch {
  import opened Wrappers

  /**
   * `get_image` for a response with status `status` and body `content`;
   * `decode` stands for opening the body as an image.
   */
  function GetImage<B>(status: int, content: seq<bv8>, decode: seq<bv8> -> B): (img: Option<B>)
    ensures img.Some? <==> (200 <= status < 300 || status == 304)
    ensures img.Some? ==> img.value == decode(content)
  {
    if 200 <= status < 300 || status == 304 then Some(decode(content)) else None
  }

  /** The boundaries of the accepted range, and the one redirect status that is accepted. */
  lemma StatusBoundaries<B>(content: seq<bv8>, decode: seq<bv8> -> B)
    ensures GetImage(200, content, decode).Some? && GetImage(299, content, decode).Some?
    ensures GetImage(304, content, decode) == Some(decode(content))
    ensures GetImage(199, content, decode).None? && GetImage(300, content, decode).None?
    ensures GetImage(303, content, decode).None? && GetImage(305, content, decode).None?
    ensures GetImage(404, content, decode).None?
  {
  }
}
