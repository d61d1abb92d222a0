/**
 * The scaling request (`scale` and `scale_image`, server.py lines 145-178).
 *
 * The size is split on `x` before the asset is fetched; its two parts go
 * through `int()` only after the asset has been fetched and cached.  The
 * image work itself (decode, thumbnail, PNG encode) is a given function of the
 * bytes and the box that either yields PNG bytes or finds no image in them.
 */
module Scaling {
  import opened Common
  import opened Text
  import opened Assets
  import opened Origin
  import opened Cache

  /** What the image library makes of some bytes: a re-encoded PNG, or no image at all. */
  datatype ImageOutcome = Png(bytes: seq<byte>) | NotAnImage

  /** The content type of every scaled result. */
  const PngType := "image/png"

  /** The white space `int()` strips from an ASCII string: space, tab, line feed, vertical tab, form feed, carriage return. */
  predicate IsSpace(c: char) {
    c == ' ' || ('\t' <= c <= '\r')
  }

  predicate IsDigit(c: char) {
    '0' <= c <= '9'
  }

  /** `s` without its leading white space. */
  function TrimStart(s: string): string
    decreases |s|
  {
    if |s| > 0 && IsSpace(s[0]) then TrimStart(s[1..]) else s
  }

  /** `s` without its trailing white space. */
  function TrimEnd(s: string): string
    decreases |s|
  {
    if |s| > 0 && IsSpace(s[|s| - 1]) then TrimEnd(s[..|s| - 1]) else s
  }

  /** Trimming the start leaves a tail of the text. */
  lemma {:induction false} TrimStartIsTail(s: string)
    ensures |TrimStart(s)| <= |s| && TrimStart(s) == s[|s| - |TrimStart(s)|..]
    decreases |s|
  {
    if |s| > 0 && IsSpace(s[0]) {
      TrimStartIsTail(s[1..]);
    }
  }

  /** Trimming the end leaves a head of the text. */
  lemma {:induction false} TrimEndIsHead(s: string)
    ensures |TrimEnd(s)| <= |s| && TrimEnd(s) == s[..|TrimEnd(s)|]
    decreases |s|
  {
    if |s| > 0 && IsSpace(s[|s| - 1]) {
      TrimEndIsHead(s[..|s| - 1]);
    }
  }

  /** Trimming the start drops white space only. */
  lemma {:induction false} TrimStartDropsSpace(s: string)
    ensures forall i :: 0 <= i < |s| - |TrimStart(s)| ==> IsSpace(s[i])
    decreases |s|
  {
    if |s| > 0 && IsSpace(s[0]) {
      TrimStartDropsSpace(s[1..]);
      assert forall i :: 1 <= i < |s| ==> s[i] == s[1..][i - 1];
    }
  }

  /** Trimming the end drops white space only. */
  lemma {:induction false} TrimEndDropsSpace(s: string)
    ensures forall i :: |TrimEnd(s)| <= i < |s| ==> IsSpace(s[i])
    decreases |s|
  {
    if |s| > 0 && IsSpace(s[|s| - 1]) {
      TrimEndDropsSpace(s[..|s| - 1]);
    }
  }

  /** Digits, with single underscores allowed between two digits. */
  predicate WellFormedDigits(s: string) {
    |s| > 0 && IsDigit(s[0]) && IsDigit(s[|s| - 1]) &&
    (forall i :: 0 <= i < |s| ==> IsDigit(s[i]) || s[i] == '_') &&
    (forall i :: 0 <= i < |s| - 1 ==> s[i] != '_' || s[i + 1] != '_')
  }

  /** The decimal value of the digits, underscores skipped. */
  function DigitsValue(s: string): nat
    decreases |s|
  {
    if |s| == 0 then 0
    else if IsDigit(s[|s| - 1]) then DigitsValue(s[..|s| - 1]) * 10 + (s[|s| - 1] as int - '0' as int)
    else DigitsValue(s[..|s| - 1])
  }

  /** `int(s)` for a base-10 string: surrounding spaces, an optional sign, digits. `None` where it raises. */
  function ParseInt(s: string): (r: Option<int>)
    ensures r.Some? ==> exists i :: 0 <= i < |s| && IsDigit(s[i])
    ensures r.Some? && r.value < 0 ==> '-' in s
  {
    TrimStartIsTail(s);
    TrimEndIsHead(TrimStart(s));
    var t := TrimEnd(TrimStart(s));
    if |t| > 0 && (t[0] == '+' || t[0] == '-') then
      var magnitude: int := DigitsValue(t[1..]);
      if WellFormedDigits(t[1..]) then Some(if t[0] == '-' then -magnitude else magnitude)
      else None
    else if WellFormedDigits(t) then Some(DigitsValue(t))
    else None
  }

  /**
   * `int()` accepts only white space, digits, a sign and underscores: text with any other
   * character, such as `12a` or `1.5`, raises.
   */
  lemma ParseIntChars(s: string)
    ensures ParseInt(s).Some? ==> forall i :: 0 <= i < |s| ==> IsSpace(s[i]) || IsDigit(s[i]) || s[i] in "+-_"
  {
    TrimStartIsTail(s);
    TrimStartDropsSpace(s);
    var u := TrimStart(s);
    TrimEndIsHead(u);
    TrimEndDropsSpace(u);
    var t := TrimEnd(u);
    var a := |s| - |u|;
    if ParseInt(s).Some? {
      forall j | 0 <= j < |t|
        ensures IsDigit(t[j]) || t[j] in "+-_"
      {
        if j > 0 && (t[0] == '+' || t[0] == '-') {
          assert t[j] == t[1..][j - 1];
        }
      }
      forall i | 0 <= i < |s|
        ensures IsSpace(s[i]) || IsDigit(s[i]) || s[i] in "+-_"
      {
        if a <= i {
          assert s[i] == u[i - a];
          if i - a < |t| {
            assert u[i - a] == t[i - a];
          }
        }
      }
    }
  }

  /** The information separators U+001C to U+001F are not stripped from an ASCII string: `int("\x1c5")` raises. */
  lemma SeparatorNotSpace()
    ensures ParseInt("\U{1C}5") == None && ParseInt(" 5\n") == Some(5)
  {
    assert TrimStart(" 5\n") == TrimStart("5\n");
    assert TrimEnd("5\n") == TrimEnd("5");
  }

  /** `str(n)` for a natural number. */
  function NatDecimal(n: nat): string
    decreases n
  {
    if n < 10 then [('0' as int + n) as char]
    else NatDecimal(n / 10) + [('0' as int + n % 10) as char]
  }

  /** `str(n)`. */
  function Decimal(n: int): string
  {
    if n < 0 then "-" + NatDecimal(-n) else NatDecimal(n)
  }

  /** The decimal digits of a number are well formed and read back as that number. */
  lemma {:induction false} NatDecimalRoundTrip(n: nat)
    ensures WellFormedDigits(NatDecimal(n)) && DigitsValue(NatDecimal(n)) == n
    ensures forall i :: 0 <= i < |NatDecimal(n)| ==> IsDigit(NatDecimal(n)[i])
    decreases n
  {
    if n >= 10 {
      var d := NatDecimal(n / 10);
      NatDecimalRoundTrip(n / 10);
      var s := d + [('0' as int + n % 10) as char];
      assert s[..|s| - 1] == d;
      assert DigitsValue(s) == DigitsValue(d) * 10 + n % 10;
    }
  }

  /** `int(str(n)) == n` for every integer. */
  lemma ParseDecimal(n: int)
    ensures ParseInt(Decimal(n)) == Some(n)
  {
    if n < 0 {
      ParseNegative(-n);
    } else {
      ParseNatural(n);
    }
  }

  /** `int(str(m)) == m` for a natural number. */
  lemma ParseNatural(m: nat)
    ensures ParseInt(NatDecimal(m)) == Some(m)
  {
    NatDecimalRoundTrip(m);
    Untrimmed(NatDecimal(m));
  }

  /** `int("-" + str(m)) == -m` for a positive number. */
  lemma ParseNegative(m: nat)
    requires m > 0
    ensures ParseInt("-" + NatDecimal(m)) == Some(-(m as int))
  {
    var d := NatDecimal(m);
    var s := "-" + d;
    assert s[0] == '-' && s[1..] == d && s[|s| - 1] == d[|d| - 1];
    NatDecimalRoundTrip(m);
    Untrimmed(s);
  }

  /** A text that starts and ends with no white space is left as it is by the trimming. */
  lemma Untrimmed(s: string)
    requires |s| > 0 && !IsSpace(s[0]) && !IsSpace(s[|s| - 1])
    ensures TrimEnd(TrimStart(s)) == s
  {
  }

  /** `width, height = size.split("x") if "x" in size else (size, size)`. */
  function ParseSize(size: string): (r: Result<(string, string), Failure>)
    ensures r.Err? ==> r.error == TooManyValues
    ensures r.Ok? ==> 'x' !in r.value.0 && 'x' !in r.value.1
  {
    if 'x' in size then
      var parts := Split(size, "x");
      if |parts| == 2 then
        SplitPiecesFree(size, "x");
        ContainsChar(parts[0], 'x');
        ContainsChar(parts[1], 'x');
        Ok((parts[0], parts[1]))
      else Err(TooManyValues)
    else Ok((size, size))
  }

  /**
   * A size with no `x` is a square; one with a single `x` is the text before it and
   * the text after it; one with two or more does not unpack.
   */
  lemma ParseSizeCases(size: string)
    ensures ParseSize(size).Ok? <==> multiset(size)['x'] <= 1
    ensures ParseSize(size).Err? ==> ParseSize(size).error == TooManyValues
    ensures 'x' !in size ==> ParseSize(size) == Ok((size, size))
    ensures 'x' in size && ParseSize(size).Ok? ==>
      var (width, height) := ParseSize(size).value;
      size == width + "x" + height && 'x' !in width && 'x' !in height
  {
    SplitCharCount(size, 'x');
    var parts := Split(size, "x");
    if 'x' in size && |parts| == 2 {
      JoinSplit(size, "x");
      assert Join(parts, "x") == parts[0] + "x" + parts[1];
      SplitPiecesFree(size, "x");
      ContainsChar(parts[0], 'x');
      ContainsChar(parts[1], 'x');
    }
  }

  /** A size `n` asks for the same box as `nxn`. */
  lemma SquareSize(n: string)
    requires 'x' !in n
    ensures ParseSize(n + "x" + n) == ParseSize(n)
  {
    SplitAtChar(n, 'x', n);
    ContainsChar(n, 'x');
    SplitFree(n, "x");
  }

  /**
   * `scale_image` with the fallback of `scale`: the PNG re-encoding when the bytes are
   * an image, otherwise the original asset unchanged.
   */
  function ScaledOrOriginal(asset: CachedAsset, width: int, height: int,
                            thumbnail: (seq<byte>, int, int) -> ImageOutcome): (r: CachedAsset)
    ensures thumbnail(asset.content, width, height).NotAnImage? ==> r == asset
    ensures thumbnail(asset.content, width, height).Png? ==>
      r.contentType == Some(PngType) && r.content == thumbnail(asset.content, width, height).bytes
  {
    match thumbnail(asset.content, width, height)
    case NotAnImage => asset
    case Png(bytes) => CachedAsset(Some(PngType), bytes)
  }

  /**
   * One call of the `scale` request handler, `size` being the path segment.  It
   * answers with an asset only for a size of at most one `x` whose fetch succeeded,
   * and then exactly when `int()` accepts both parts; otherwise it fails with
   * `NotAnInteger` after the fetch.
   */
  function ScaleServe(files: map<string, Record>, calls: seq<Call>, respond: (nat, Call) -> Response,
                      thumbnail: (seq<byte>, int, int) -> ImageOutcome,
                      url: string, size: string, requestUrl: string): (r: Outcome)
    ensures r.result.Ok? ==> multiset(size)['x'] <= 1 && Serve(files, calls, respond, url, requestUrl).result.Ok?
    ensures ParseSize(size).Ok? && Serve(files, calls, respond, url, requestUrl).result.Ok? ==>
      var (w, h) := ParseSize(size).value;
      (r.result.Ok? <==> ParseInt(w).Some? && ParseInt(h).Some?) &&
      (r.result.Err? ==> r.result.error == NotAnInteger)
  {
    ParseSizeCases(size);
    match ParseSize(size)
    case Err(e) => Outcome(Err(e), files, calls)
    case Ok((w, h)) => ScaleFetched(Serve(files, calls, respond, url, requestUrl), w, h, thumbnail)
  }

  /**
   * The tail of `scale` after the fetch: `int()` on the width and the height, then the
   * scaling.  It never writes to the cache or calls the origin, and passes a failed fetch on.
   * After a successful fetch it succeeds exactly when `int()` accepts both parts, and
   * fails with `NotAnInteger` otherwise: the `try` around it catches only PIL's error.
   */
  function ScaleFetched(o: Outcome, w: string, h: string, thumbnail: (seq<byte>, int, int) -> ImageOutcome): (r: Outcome)
    ensures r.files == o.files && r.calls == o.calls
    ensures o.result.Err? ==> r == o
    ensures r.result.Ok? ==> o.result.Ok?
    ensures o.result.Ok? ==> (r.result.Ok? <==> ParseInt(w).Some? && ParseInt(h).Some?)
    ensures o.result.Ok? && r.result.Err? ==> r.result.error == NotAnInteger
  {
    match o.result
    case Err(_) => o
    case Ok(asset) =>
      match (ParseInt(w), ParseInt(h))
      case (Some(width), Some(height)) => o.(result := Ok(ScaledOrOriginal(asset, width, height, thumbnail)))
      case _ => o.(result := Err(NotAnInteger))
  }

  /**
   * A width with a character `int()` does not take (a letter, a dot) makes a request whose
   * fetch succeeded fail with `NotAnInteger`, the asset fetched and cached all the same.
   */
  lemma ScaleRejectsNonInteger(files: map<string, Record>, calls: seq<Call>, respond: (nat, Call) -> Response,
                               thumbnail: (seq<byte>, int, int) -> ImageOutcome,
                               url: string, w: string, h: string, requestUrl: string, k: nat)
    requires 'x' !in w && 'x' !in h
    requires k < |w| && !IsSpace(w[k]) && !IsDigit(w[k]) && w[k] !in "+-_"
    requires Serve(files, calls, respond, url, requestUrl).result.Ok?
    ensures var o := ScaleServe(files, calls, respond, thumbnail, url, w + "x" + h, requestUrl);
      var plain := Serve(files, calls, respond, url, requestUrl);
      o == plain.(result := Err(NotAnInteger))
  {
    var size := w + "x" + h;
    SizeWithOneX(w, h);
    ParseIntChars(w);
    var plain := Serve(files, calls, respond, url, requestUrl);
    assert ScaleServe(files, calls, respond, thumbnail, url, size, requestUrl) == ScaleFetched(plain, w, h, thumbnail);
    FetchedNotAnInteger(plain, w, h, thumbnail);
  }

  /** `w + "x" + h` with no other `x` unpacks into `w` and `h`. */
  lemma SizeWithOneX(w: string, h: string)
    requires 'x' !in w && 'x' !in h
    ensures ParseSize(w + "x" + h) == Ok((w, h))
  {
    var size := w + "x" + h;
    assert size[|w|] == 'x';
    SplitAtChar(w, 'x', h);
    ContainsChar(h, 'x');
    SplitFree(h, "x");
  }

  /** After a successful fetch, a width `int()` rejects replaces the asset with `NotAnInteger`. */
  lemma FetchedNotAnInteger(o: Outcome, w: string, h: string, thumbnail: (seq<byte>, int, int) -> ImageOutcome)
    requires o.result.Ok? && ParseInt(w).None?
    ensures ScaleFetched(o, w, h, thumbnail) == o.(result := Err(NotAnInteger))
  {
  }

  /** A size with two or more `x` fails before the cache or the origin is touched. */
  lemma ScaleBadSize(files: map<string, Record>, calls: seq<Call>, respond: (nat, Call) -> Response,
                     thumbnail: (seq<byte>, int, int) -> ImageOutcome,
                     url: string, size: string, requestUrl: string)
    requires multiset(size)['x'] >= 2
    ensures ScaleServe(files, calls, respond, thumbnail, url, size, requestUrl) == Outcome(Err(TooManyValues), files, calls)
  {
    ParseSizeCases(size);
  }

  /**
   * Scaling never writes back: the cache and the origin's log end as after the plain
   * request, even when a width or height then fails to parse.
   */
  lemma ScaleCachesOnlyOriginal(files: map<string, Record>, calls: seq<Call>, respond: (nat, Call) -> Response,
                                thumbnail: (seq<byte>, int, int) -> ImageOutcome,
                                url: string, size: string, requestUrl: string)
    requires multiset(size)['x'] <= 1
    ensures var o := ScaleServe(files, calls, respond, thumbnail, url, size, requestUrl);
      var plain := Serve(files, calls, respond, url, requestUrl);
      o.files == plain.files && o.calls == plain.calls && (plain.result.Err? ==> o.result == plain.result)
  {
    ParseSizeCases(size);
  }

  /**
   * With a fetched asset and a well-formed box, the result is the original asset when
   * the bytes are not an image, and otherwise a PNG.
   */
  lemma ScaleResult(files: map<string, Record>, calls: seq<Call>, respond: (nat, Call) -> Response,
                    thumbnail: (seq<byte>, int, int) -> ImageOutcome,
                    url: string, width: int, height: int, requestUrl: string)
    requires Serve(files, calls, respond, url, requestUrl).result.Ok?
    ensures var asset := Serve(files, calls, respond, url, requestUrl).result.value;
      var o := ScaleServe(files, calls, respond, thumbnail, url, Decimal(width) + "x" + Decimal(height), requestUrl);
      o.result.Ok? &&
      (thumbnail(asset.content, width, height).NotAnImage? ==> o.result.value == asset) &&
      (thumbnail(asset.content, width, height).Png? ==> o.result.value.contentType == Some(PngType))
  {
    ParseBox(width, height);
    ParseDecimal(width);
    ParseDecimal(height);
  }

  /** The size `WxH` written from two numbers splits back into their decimal forms. */
  lemma ParseBox(width: int, height: int)
    ensures ParseSize(Decimal(width) + "x" + Decimal(height)) == Ok((Decimal(width), Decimal(height)))
  {
    NoXInDecimal(width);
    NoXInDecimal(height);
    SplitAtChar(Decimal(width), 'x', Decimal(height));
    ContainsChar(Decimal(height), 'x');
    SplitFree(Decimal(height), "x");
  }

  /** A number's decimal form holds no `x`. */
  lemma NoXInDecimal(n: int)
    ensures 'x' !in Decimal(n)
  {
    NatDecimalRoundTrip(if n < 0 then -n else n);
  }

  /** The `scale` request handler: parse the size, fetch through the cache, then scale or fall back. */
  method Scale(cache: AssetCache, origin: Remote, thumbnail: (seq<byte>, int, int) -> ImageOutcome,
               url: string, size: string, requestUrl: string) returns (r: Result<CachedAsset, Failure>)
    modifies cache, origin
    ensures Outcome(r, cache.files, origin.calls) ==
      ScaleServe(old(cache.files), old(origin.calls), origin.respond, thumbnail, url, size, requestUrl)
  {
    var dims := ParseSize(size);
    if dims.Err? {
      return Err(dims.error);
    }
    var (w, h) := dims.value;
    var image := cache.CacheAndGetAsset(url, requestUrl, origin);
    if image.Err? {
      return image;
    }
    var width, height := ParseInt(w), ParseInt(h);
    if width.None? || height.None? {
      return Err(NotAnInteger);
    }
    r := Ok(ScaledOrOriginal(image.value, width.value, height.value, thumbnail));
  }
}
