/**
 * What the proxy serves and what it keeps on disk.
 *
 * A `CachedAsset` is the content type the origin reported (absent when the
 * origin sent no `Content-Type` header, which the record then stores as JSON
 * `null`) and the raw bytes.  On disk each asset is one JSON object with the
 * fields `content_type` and `content`, the latter the MIME-wrapped base 64 of
 * the bytes; `Record` is that object once parsed.
 */
module Assets {
  import opened Common
  import Base64

  datatype CachedAsset = CachedAsset(contentType: Option<string>, content: seq<byte>)

  /** The JSON object of a cache file: `{"content_type": ..., "content": ...}`. */
  datatype Record = Record(contentType: Option<string>, content: string)

  /** Why a request fails. */
  datatype Failure =
    | MalformedUrl                          // `split(...)[1]` found no such piece (IndexError)
    | HttpError(status: int, reason: string) // the origin answered with a status other than 200
    | CorruptRecord                         // a cache file's `content` is not base 64
    | TooManyValues                         // a size with two or more `x` does not unpack into two
    | NotAnInteger                          // `int()` rejected a width or a height

  /**
   * The record `save` writes for an asset fetched from the origin: the reported content
   * type, and the bytes as base 64 text that holds only symbols, pads and line breaks.
   */
  function EncodeRecord(asset: CachedAsset): (r: Record)
    ensures r.contentType == asset.contentType
    ensures Base64.MimeText(r.content) && Base64.Ascii(r.content)
  {
    Record(asset.contentType, Base64.EncodeLines(asset.content))
  }

  /** Reading a record back into an asset, as the tail of `cache_and_get_asset` does. */
  function DecodeRecord(rec: Record): (r: Result<CachedAsset, Failure>)
    ensures r.Ok? ==> r.value.contentType == rec.contentType
    ensures r.Err? ==> r.error == CorruptRecord
    ensures r.Ok? ==> Base64.Ascii(rec.content)
  {
    match Base64.DecodeText(rec.content)
    case None => Err(CorruptRecord)
    case Some(bytes) => Ok(CachedAsset(rec.contentType, bytes))
  }

  /** A written record reads back as the same content type and byte-identical content. */
  lemma RecordRoundTrip(asset: CachedAsset)
    ensures DecodeRecord(EncodeRecord(asset)) == Ok(asset)
  {
    Base64.EncodeLinesRoundTrip(asset.content);
  }
}
