# A verified model of the Firebase Storage cache server

`server.py` is a read-through cache in front of Firebase Storage. A client
passes a storage URL in the `url` query parameter. The server derives a cache
file from the object path in that URL. On a miss it downloads the object with
a GET and stores it once. On a hit it re-checks the caller's access with a HEAD.
In both cases it then reads the stored record back. The `/scale/{size}`
request also shrinks images to a box and re-encodes them as PNG. When the
bytes are not an image, it returns the original asset.

This Dafny project models that core:

- `text.dfy` (module `Text`): Python's `str.split` and `str.join` on a
  non-empty separator, with the split/join round trip and the fact that every
  piece is free of the separator.
- `base64.dfy` (module `Base64`): base 64 as in section 4 of RFC 4648,
  wrapped into MIME lines of 76 symbols (section 6.8 of RFC 2045) the way
  `base64.encodebytes` writes it. Decoding refuses text that is not ASCII and
  skips line breaks. The module proves the round trip.
- `assets.dfy` (module `Assets`): the `CachedAsset` record, the JSON record
  `{content_type, content}` stored in a cache file, the ways a request can
  fail, and the round trip of the stored record.
- `paths.dfy` (module `Paths`): the object path taken from the storage URL,
  the cache file name built with `os.path.join`, and the download URL taken
  from the request URL.
- `origin.dfy` (module `Origin`): the storage front end. It is a fixed answer
  function (the n-th request's answer may depend on n) plus a log of every
  request sent.
- `cache.dfy` (module `Cache`): `save`, `check_access_right` and
  `cache_and_get_asset`. They are methods of the class `AssetCache`, whose
  field `files` maps each cache file to its record. The pure function `Serve`
  states what one request returns, what the cache holds afterwards, and which
  origin calls were made. `CacheAndGetAsset` is proved to do exactly that.
  The lemmas about `Serve` state the protocol's properties.
- `scaling.dfy` (module `Scaling`): the size parsing of `scale`, Python's
  `int()` on a decimal string, the not-an-image fallback, and the whole
  `scale` request as `ScaleServe` with the method `Scale`.

Where the code does something a reader may not expect, the model follows the code:

- The object path is not URL-decoded: `%2F` stays as it is.
- A URL without the storage host or without `/o/` raises an IndexError, not a
  client error. The model returns `MalformedUrl` and carries no HTTP status.
- Each `split(...)[1]` takes the text between the first and the second
  occurrence of the marker, not the whole remainder.
- The download URL is not rebuilt from the path and the query. It is the
  request URL's text after its first `=`.
- A size whose parts are not integers fails in `int()` only after the asset
  has been fetched and cached. A size with two or more `x` fails before that.

## Model

| member | source | states |
|---|---|---|
| Text.FindFrom | server.py:122-124 | returns the first index at or after `i` where the separator occurs, or none when it does not occur there |
| Text.Split | server.py:122-124 | `s.split(sep)` always has at least one piece, so `split("?")[0]` never fails |
| Text.Join | server.py:126 | `sep.join(parts)` starts with the first piece |
| Text.JoinSplit | server.py:126 | joining the pieces of `s.split(sep)` with `sep` gives back `s` |
| Text.SplitPiecesFree | server.py:123-124 | no piece of a split contains the separator: each piece is the text between two consecutive cuts |
| Text.SplitHasSecond | server.py:123-124 | `s.split(sep)[1]` exists exactly when `sep` occurs in `s` |
| Text.SplitCharCount | server.py:172 | splitting on one character gives one more piece than there are copies of that character |
| Base64.EncodeLines | server.py:86 | `base64.encodebytes`: the text holds only alphabet symbols, pads and line breaks, and ends in a line break unless there are no bytes |
| Base64.Encode | server.py:86 | the unwrapped encoding of n bytes has 4 * ceil(n / 3) symbols |
| Base64.Decode | server.py:141 | the strict decoder of unwrapped quads: a successful decode yields at most three bytes per four symbols |
| Base64.Strip | server.py:141 | the non-strict decoder's first step: what is left holds only alphabet symbols and pads, and is no longer than the text |
| Base64.DecodeText | server.py:141 | `base64.b64decode` of the stored text: it succeeds only on ASCII text, and yields at most three bytes per four characters |
| Base64.NonAsciiRefused | server.py:141 | `b64decode("éQQ==")` raises on the non-ASCII character, while `b64decode("QQ==\n")` skips the line break and gives `A` |
| Base64.DecodeEncode | server.py:141 | decoding the unwrapped encoding gives back every byte string exactly |
| Base64.EncodeLinesRoundTrip | server.py:141 | `b64decode(encodebytes(b)) == b` for every byte string, non-UTF-8 bytes included |
| Base64.LinesAtMost76 | server.py:86 | no line of the `encodebytes` output is longer than 76 symbols |
| Assets.EncodeRecord | server.py:84-87 | the record `save` writes keeps the origin's content type, and its content is ASCII base 64 text of symbols, pads and line breaks |
| Assets.DecodeRecord | server.py:139-142 | a readable record keeps its stored content type and has ASCII content; a record whose content is not ASCII or not base 64 fails as a corrupt record |
| Assets.RecordRoundTrip | server.py:84-87 | the record written for an asset reads back as the same content type and byte-identical content |
| Paths.ObjectPath | server.py:122-124 | `url.split("?")[0].split(FIREBASE_BASE_URL)[1].split("/o/")[1]`: a missing piece fails only as `MalformedUrl`, and a found path contains no `/o/`, since it stops at the next one |
| Paths.ObjectPathIgnoresQuery | server.py:122 | two URLs that differ only after their first `?` have the same object path, and so does the URL without a query |
| Paths.ObjectPathFails | server.py:123-124 | the lookup fails, always with `MalformedUrl`, exactly when the host marker is missing before the query, or `/o/` is missing from the piece after it |
| Paths.ObjectPathOfStorageUrl | server.py:122-124 | for `site + host + bucket + "/o/" + name`, with or without a query, where the markers occur only there, the object path is `name` |
| Paths.ObjectPathStopsAtNextMarker | server.py:124 | `split("/o/")[1]` stops at the next `/o/`: in `site + host + bucket + "/o/" + name + "/o/" + more` the object path is `name` alone |
| Paths.ObjectPathStopsAtNextHost | server.py:123 | `split(FIREBASE_BASE_URL)[1]` stops at the next host marker: in `site + host + bucket + "/o/" + name + host + more` the object path is `name` |
| Paths.PathJoin | server.py:128 | `os.path.join(a, b)`: the result ends with `b`, and starts with `a` unless `b` is absolute |
| Paths.CacheFileOf | server.py:128 | `os.path.join(CACHE_DIR, path + ".cache")`: the file name ends with the path and `.cache`, and lies under `./cache` unless the path is absolute |
| Paths.CacheFile | server.py:122-128 | the cache file of a storage URL is a name ending in `.cache`; a URL whose object path cannot be found fails only with `MalformedUrl` |
| Paths.CacheFileUnderCacheDir | server.py:128 | an object path that does not start with `/` is filed as `./cache/<path>.cache` |
| Paths.CacheFileOfAbsolutePath | server.py:128 | an object path that starts with `/` makes `os.path.join` drop the cache directory |
| Paths.CacheFileInjective | server.py:128 | two different object paths never share a cache file |
| Paths.DownloadUrl | server.py:126 | `"=".join(str(request.url).split("=")[1:])`: the download URL is a tail of the request URL, taken verbatim |
| Paths.DownloadUrlAfterFirstEquals | server.py:126 | the download URL is the request URL's text after its first `=`, every later `=` kept |
| Paths.DownloadUrlWithoutEquals | server.py:126 | a request URL without `=` gives the empty download URL |
| Origin.Remote.Send | server.py:75 | one request is logged, and the answer is the origin's answer to that request |
| Cache.Serve | server.py:112-142 | one `cache_and_get_asset` call as a value: the origin's log gains at most one call, and no cache file disappears |
| Cache.ServeFile | server.py:128-142 | once the cache file is known: exactly one origin call is logged, no existing cache file is rewritten, a rejected call stores nothing, and a success is what the cache file now decodes to |
| Cache.ServeMalformed | server.py:122-124 | a URL without the host marker or `/o/` fails with `MalformedUrl`, leaving the cache and the origin's log untouched |
| Cache.ServeOneCall | server.py:130-136 | a well-formed request makes exactly one origin call to the download URL: a GET on a miss, a HEAD on a hit |
| Cache.ServeMissStores | server.py:81-97 | a miss whose GET answers 200 stores exactly the response's content type and bytes under the URL's file, changes no other file, and returns what was fetched |
| Cache.ServeMissRejected | server.py:75-79 | a miss whose GET answers another status fails with that status and reason and leaves the cache unchanged |
| Cache.ServeHit | server.py:100-109 | on a hit the cache is unchanged; a HEAD that does not answer 200 fails with its status and reason and returns no bytes; a HEAD that answers 200 returns the stored record |
| Cache.ServeFailureNotCached | server.py:75-79 | every failed request leaves the cache as it was |
| Cache.ServeWriteOnce | server.py:70-72 | no stored record is ever replaced or removed, and the only file that can appear is the URL's own |
| Cache.ServeKeepsReadable | server.py:139-142 | when every stored record is readable, it stays so, and no request fails on a corrupt record |
| Cache.ServeAgain | server.py:131-142 | after a successful request, another request for the same object whose HEAD answers 200 returns the same content type and bytes and leaves the cache unchanged |
| Cache.CheckAccessRight | server.py:100-109 | sends exactly one HEAD to the URL, then succeeds on 200 and fails with the origin's status and reason otherwise |
| Cache.AssetCache.Save | server.py:63-97 | an existing file means no origin call and no change; otherwise one GET, after which either the failure is raised with nothing written or the fetched record is written once |
| Cache.AssetCache.CacheAndGetAsset | server.py:112-142 | the returned value, the cache afterwards and the origin's log afterwards are exactly those of `Serve` |
| Scaling.ParseInt | server.py:175 | `int()` on a decimal string: a number comes only from text with a digit in it, and a negative one only from text with a `-` |
| Scaling.ParseIntChars | server.py:175 | `int()` accepts only text made of white space, digits, signs and underscores; any other character, such as a letter or a `.`, makes it raise |
| Scaling.NatDecimalRoundTrip | server.py:175 | the decimal digits of a natural number are well formed for `int()` and read back as that number |
| Scaling.ParseDecimal | server.py:175 | `int(str(n)) == n` for every integer `n` (Python's 4300-digit limit aside) |
| Scaling.SeparatorNotSpace | server.py:175 | `int("\x1c5")` raises, while `int(" 5\n")` is 5: only the six ASCII white space characters are stripped |
| Scaling.ParseSize | server.py:172 | `size.split("x") if "x" in size else (size, size)`: it fails only with too many values, and neither part holds an `x` |
| Scaling.ParseSizeCases | server.py:172 | a size with no `x` is `(size, size)`; with one `x` it is the text before and the text after it; with two or more it fails with too many values |
| Scaling.SquareSize | server.py:172 | a size `n` asks for the same box as `nxn` |
| Scaling.ParseBox | server.py:172 | the size `WxH` written from two integers splits back into exactly their two decimal forms |
| Scaling.ScaledOrOriginal | server.py:174-178 | bytes that are not an image give back the original asset unchanged; otherwise the result is the PNG re-encoding, with content type `image/png` |
| Scaling.ScaleServe | server.py:163-178 | one `scale` call as a value: it answers with an asset only when the size has at most one `x` and the fetch succeeded; once the size unpacks and the fetch succeeds, it answers exactly when `int()` accepts both parts, and fails with `NotAnInteger` otherwise |
| Scaling.ScaleFetched | server.py:173-178 | the part of `scale` after the fetch never changes the cache or the origin's log and passes a failed fetch on unchanged; after a successful fetch it succeeds exactly when `int()` accepts the width and the height, and otherwise fails with `NotAnInteger`, since the `try` catches only PIL's error |
| Scaling.ScaleRejectsNonInteger | server.py:172-176 | a size `WxH` whose width holds a character `int()` does not take fails with `NotAnInteger`, with the asset fetched and cached all the same |
| Scaling.ScaleBadSize | server.py:172 | a size with two or more `x` fails before the cache or the origin is touched |
| Scaling.ScaleCachesOnlyOriginal | server.py:173-175 | scaling never writes back: the cache and the origin's log end as after the plain request, even when `int()` then fails |
| Scaling.ScaleResult | server.py:173-178 | for a fetched asset and the box `WxH`, the result is the original asset when the bytes are not an image, and a PNG otherwise |
| Scaling.Scale | server.py:163-178 | the returned value, the cache afterwards and the origin's log afterwards are exactly those of `ScaleServe`, so a part `int()` rejects fails with `NotAnInteger` after the fetch |

## Left out

- FastAPI routing, the CORS middleware, the `cache` request handler and `CachedAsset.response`: these are framework wiring around `cache_and_get_asset` and `scale`.
- The creation of `./cache` at start-up and the `os.makedirs` of parent directories: the cache is a map from file name to record, with no directories.
- `requests.get` and `requests.head`: they are the answer function of `Origin.Remote`. Redirects, timeouts and connection errors are left to that function or not modelled.
- PIL's decoding, `thumbnail` with LANCZOS and PNG encoding: they are a given function from bytes and box to either PNG bytes or "not an image". Other exceptions PIL may raise, for example for a zero or negative box, are not modelled.
- JSON text: a cache file holds the parsed `{content_type, content}` object (`Assets.Record`). `json.dumps` and `json.loads` escaping, and files whose JSON is invalid or lacks a field, are not modelled.
- The file system's own path resolution: `..` segments and directories are not resolved, so `a/../b` and `b` are different keys in the model.
- The race between two concurrent first requests for the same file: the code has no locking, and the model is sequential.
- Scaling.ParseInt: models `int()` on ASCII text, which strips only space, tab, line feed, vertical tab, form feed and carriage return. On text with a non-ASCII character, Python first maps Unicode white space (U+001C to U+001F included) to spaces and Unicode decimal digits to ASCII digits; the model rejects every non-ASCII character instead. Python 3.11 and later also reject a string of more than 4300 digits; the model has no digit limit.
- Scaling.ParseDecimal: holds for every integer in the model. In Python 3.11 and later, `str()` and `int()` raise ValueError on numbers of more than 4300 digits, so the round trip holds there only up to that size.
- Base64.Decode: rejects some malformed padding that Python's non-strict decoder tolerates, for example symbols after the pad. It agrees with Python on every text the encoder writes.
- Cache.AssetCache.Save: `HTTPException` is raised with any status the origin sends, even one below 400. The model keeps the status as a plain number.
- Cache.AssetCache.Save: the cache map accepts every file name, and the errors of `open`, `write` and `read` on a cache file are not modelled. Examples are a name component longer than the file system allows (a percent-encoded object name with `%2F` stays one component), a NUL byte in the path, missing permissions and a full disk. On such a miss Python sends the GET, then fails with a server error, stores nothing, and sends the GET again on the next request. The model stores the record and returns the asset, so `Cache.ServeFile` and `Cache.ServeMissStores` describe only a file system on which every write and read of a cache file succeeds.
