/**
 * Public URLs of stored objects: a base URL fixed when the generator is
 * built (the bucket as a subdomain of the endpoint, or a CDN host), then
 * the object path, each '/'-separated segment percent-encoded on its own.
 */
module PublicUrl {
  import opened Php
  import opened UrlEncoding

  const Https: Str := "https://"
  const Http: Str := "http://"

  /** `preg_replace('#^https?://#', '', $url)`: one leading "https://" or "http://", matched case-sensitively, is removed. */
  function StripScheme(url: Str): Str
  {
    if Https <= url then url[|Https|..]
    else if Http <= url then url[|Http|..]
    else url
  }

  /** A base URL's scheme is dropped, and only that. */
  lemma StripSchemeOf(host: Str)
    ensures StripScheme(Https + host) == host
    ensures StripScheme(Http + host) == host
    ensures !(Http <= host) && !(Https <= host) ==> StripScheme(host) == host
  {
    assert (Https + host)[..|Https|] == Https;
    var h := Http + host;
    assert h[..|Http|] == Http;
    assert !(Https <= h) by { assert h[4] != Https[4]; }
  }

  /** The generator keeps the base URL and the prefix. */
  datatype PublicUrlGenerator = PublicUrlGenerator(baseUrl: Str, prefix: Str)
  {
    /** The URL of the object at path: base, '/', then the encoded object path. */
    function PublicUrl(path: Str): Str
    {
      baseUrl + "/" + EncodePath(ObjectPath(prefix, path))
    }
  }

  /** The base URL: "https://" and the host, with the bucket as a subdomain in the OBS format and ignored otherwise. */
  function NewPublicUrlGenerator(baseUrl: Str, bucket: Str, prefix: Str, useObsFormat: bool): (g: PublicUrlGenerator)
    ensures g.prefix == prefix
    ensures Https <= g.baseUrl
    ensures useObsFormat ==> g.baseUrl == Https + bucket + "." + StripScheme(baseUrl)
    ensures !useObsFormat ==> g.baseUrl == Https + StripScheme(baseUrl)
  {
    var cleanUrl := StripScheme(baseUrl);
    if useObsFormat then PublicUrlGenerator(Https + bucket + "." + cleanUrl, prefix)
    else PublicUrlGenerator(Https + cleanUrl, prefix)
  }

  /** The object path: the prefix, '/', and the path without its leading slashes; the path unchanged when there is no prefix. */
  function ObjectPath(prefix: Str, path: Str): Str
  {
    if prefix != [] then prefix + "/" + TrimLeft(path, "/") else path
  }

  /** `array_map('rawurlencode', $segments)` */
  function EncodeSegments(segments: seq<Str>): (r: seq<Str>)
    ensures |r| == |segments|
    ensures forall i :: 0 <= i < |r| ==> r[i] == RawUrlEncode(segments[i])
  {
    seq(|segments|, i requires 0 <= i < |segments| => RawUrlEncode(segments[i]))
  }

  /** `implode('/', array_map('rawurlencode', explode('/', $path)))` */
  function EncodePath(path: Str): Str
  {
    Implode("/", EncodeSegments(Explode('/', path)))
  }

  /** Percent-decodes each segment, as a reader of the URL does. */
  function DecodeSegments(segments: seq<Str>): (r: seq<Str>)
    ensures |r| == |segments|
    ensures forall i :: 0 <= i < |r| ==> r[i] == PercentDecode(segments[i], false)
  {
    seq(|segments|, i requires 0 <= i < |segments| => PercentDecode(segments[i], false))
  }

  /** Splits an encoded path at '/', decodes each segment and joins them again. */
  function DecodePath(encoded: Str): Str
  {
    Implode("/", DecodeSegments(Explode('/', encoded)))
  }

  /** An encoded segment holds no '/' and no space. */
  lemma EncodedSegmentBytes(s: Str)
    ensures '/' !in RawUrlEncode(s) && ' ' !in RawUrlEncode(s)
  {
    RawUrlEncodeAlphabet(s);
    var e := RawUrlEncode(s);
    forall i | 0 <= i < |e| ensures e[i] != '/' && e[i] != ' ' {
      assert IsUnreserved(e[i]) || e[i] == '%' || IsHexDigit(e[i]);
    }
  }

  /** Splitting the encoded path at '/' gives back the encoded segments of the path: the '/'s are exactly the path's own. */
  lemma {:induction false} EncodePathSegments(path: Str)
    ensures Explode('/', EncodePath(path)) == EncodeSegments(Explode('/', path))
    ensures Count('/', EncodePath(path)) == Count('/', path)
  {
    var segments := EncodeSegments(Explode('/', path));
    forall i | 0 <= i < |segments| ensures '/' !in segments[i] {
      EncodedSegmentBytes(Explode('/', path)[i]);
    }
    ExplodeImplode('/', segments);
  }

  /** An encoded path holds no space. */
  lemma EncodePathHasNoSpace(path: Str)
    ensures ' ' !in EncodePath(path)
  {
    var segments := EncodeSegments(Explode('/', path));
    forall i | 0 <= i < |segments| ensures ' ' !in segments[i] {
      EncodedSegmentBytes(Explode('/', path)[i]);
    }
    ImplodeBytes("/", segments, ' ');
  }

  /** Decoding each segment of the encoded path recovers the object path. */
  lemma {:induction false} DecodeEncodePath(path: Str)
    ensures DecodePath(EncodePath(path)) == path
  {
    EncodePathSegments(path);
    var segments := Explode('/', path);
    var decoded := DecodeSegments(EncodeSegments(segments));
    forall i | 0 <= i < |segments| ensures decoded[i] == segments[i] {
      RawUrlDecodeEncode(segments[i], false);
    }
    assert decoded == segments;
    ImplodeExplode('/', path);
  }

  /**
   * The URL is the base, '/', and the encoded object path; its part after
   * the base decodes back to the object path.
   */
  lemma PublicUrlShape(g: PublicUrlGenerator, path: Str)
    ensures g.baseUrl + "/" <= g.PublicUrl(path)
    ensures DecodePath(g.PublicUrl(path)[|g.baseUrl| + 1..]) == ObjectPath(g.prefix, path)
    ensures ' ' !in g.PublicUrl(path)[|g.baseUrl| + 1..]
  {
    var e := EncodePath(ObjectPath(g.prefix, path));
    assert g.PublicUrl(path)[|g.baseUrl| + 1..] == e;
    DecodeEncodePath(ObjectPath(g.prefix, path));
    EncodePathHasNoSpace(ObjectPath(g.prefix, path));
  }

  /** With a prefix, the object path has exactly one '/' between the prefix and the path. */
  lemma {:induction false} ObjectPathJoin(prefix: Str, path: Str)
    requires prefix != []
    ensures ObjectPath(prefix, path) == prefix + "/" + TrimLeft(path, "/")
    ensures var rest := ObjectPath(prefix, path)[|prefix| + 1..]; rest == [] || rest[0] != '/'
  {
    TrimLeftSpec(path, "/");
    var joined := ObjectPath(prefix, path);
    assert joined[|prefix| + 1..] == TrimLeft(path, "/");
  }
}

