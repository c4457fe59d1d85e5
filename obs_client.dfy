/**
 * The OBS REST client's request shaping: the constructor's defaults and
 * credential check; the host, path and URL of a request; the `Date`, `Host`
 * and `Authorization` headers; the classification of the response status;
 * and the arguments each operation hands to `request`.
 *
 * The clock, `http_build_query`, the HMAC and the HTTP transport come from
 * outside, as the fields of an `Environment`.
 */
module Client {
  import opened Wrappers
  import opened Php
  import opened PhpArray
  import opened XmlText
  import opened Signature
  import opened RequestBodies

  // ================================================================ names and defaults

  const DefaultRegion: Str := "cn-north-4"
  const CloudDomain: Str := ".myhuaweicloud.com"
  const MissingCredentials: Str := "Missing access key or secret key"

  const PutMethod: Str := "PUT"
  const PostMethod: Str := "POST"
  const ContentType: Str := "Content-Type"
  const ContentMd5: Str := "Content-MD5"
  const ApplicationXml: Str := "application/xml"
  const OctetStream: Str := "application/octet-stream"
  const DateHeader: Str := "Date"
  const HostHeader: Str := "Host"
  const CopySource: Str := "x-obs-copy-source"
  const StorageClass: Str := "x-obs-storage-class"
  const Acl: Str := "x-obs-acl"
  const ETagHeader: Str := "etag"

  /** `obs.<region>.myhuaweicloud.com` */
  function DefaultEndpoint(region: Str): Str
  {
    "obs." + region + CloudDomain
  }

  // ================================================================ the client

  /** What a request takes from outside the client. */
  datatype Environment = Environment(
    /** gmdate('D, d M Y H:i:s \G\M\T') at the time of the call */
    date: Str,
    /** http_build_query */
    buildQuery: Arr<QueryValue> -> Str,
    /** base64 of HMAC-SHA1(secret key, text) */
    mac: (Str, Str) -> Str,
    /** the HTTP client: status, headers (lower-case name to values) and body */
    send: HttpRequest -> RawResponse)

  /** The request handed to the HTTP client. */
  datatype HttpRequest = HttpRequest(verb: Str, url: Str, headers: Arr<Str>, body: Str)

  /** What the HTTP client answers; also what a successful request returns. */
  datatype RawResponse = RawResponse(status: int, headers: Arr<seq<Str>>, body: Str)

  /** The arguments of `request`: method, bucket, object, query, headers, body. */
  datatype ApiCall = ApiCall(verb: Str, bucket: Str, objectKey: Str, query: Arr<QueryValue>,
                             headers: Arr<Str>, body: Str)

  /** The options createBucket reads. */
  datatype BucketOptions = BucketOptions(location: Option<Str>, storageClass: Option<Str>, acl: Option<Str>)

  /**
   * The constructor: the region defaults to cn-north-4, the endpoint to the
   * region's public endpoint; an empty access key or secret key is refused.
   */
  function NewObsClient(accessKey: Str, secretKey: Str, region: Option<Str>, endpoint: Option<Str>)
    : (r: Result<ObsClient, Str>)
    ensures r.Failure? <==> accessKey == [] || secretKey == []
    ensures r.Failure? ==> r.error == MissingCredentials
    ensures r.Success? ==> r.value.signature == ObsSignature(accessKey, secretKey)
    ensures r.Success? ==> r.value.region == region.GetOr(DefaultRegion)
    ensures r.Success? && endpoint.None? ==> r.value.endpoint == DefaultEndpoint(r.value.region)
    ensures r.Success? && endpoint.Some? ==> r.value.endpoint == endpoint.value
  {
    var region' := region.GetOr(DefaultRegion);
    var endpoint' := endpoint.GetOr(DefaultEndpoint(region'));
    if accessKey == [] || secretKey == [] then Failure(MissingCredentials)
    else Success(ObsClient(region', endpoint', ObsSignature(accessKey, secretKey)))
  }

  /** The request host: the bucket as a sub-domain of the endpoint, or the endpoint alone. */
  function HostName(endpoint: Str, bucket: Str): Str
  {
    if bucket != [] then bucket + "." + endpoint else endpoint
  }

  /** The request path: '/' and the object key without its leading slashes; "/" for no object. */
  function RequestPath(objectKey: Str): Str
  {
    if objectKey != [] then "/" + TrimLeft(objectKey, "/") else "/"
  }

  function HttpsUrl(host: Str, path: Str): Str
  {
    "https://" + host + path
  }

  function WithQueryString(url: Str, queryString: Str): Str
  {
    url + "?" + queryString
  }

  /** The request URL: https, the host, the path, and the built query when there is one. */
  function RequestUrl(endpoint: Str, call: ApiCall, buildQuery: Arr<QueryValue> -> Str): Str
  {
    var url := HttpsUrl(HostName(endpoint, call.bucket), RequestPath(call.objectKey));
    if call.query == [] then url else WithQueryString(url, buildQuery(call.query))
  }

  /** The caller's headers with Date and Host set, as they are signed. */
  function PresetHeaders(headers: Arr<Str>, date: Str, host: Str): Arr<Str>
  {
    Put(Put(headers, DateHeader, date), HostHeader, host)
  }

  /** The status message of a failed request. */
  function FailureMessage(status: int, body: Str): Str
  {
    "Request failed with status " + IntToStr(status) + ": " + body
  }

  /** A status of 300 or more is a failure carrying the status and the body; anything lower is returned whole. */
  function Classify(response: RawResponse): (r: Result<RawResponse, Str>)
    ensures r.Success? <==> response.status < 300
    ensures r.Success? ==> r.value == response
    ensures r.Failure? ==> r.error == FailureMessage(response.status, response.body)
  {
    if response.status >= 300 then Failure(FailureMessage(response.status, response.body))
    else Success(response)
  }

  /** A client: its region, its endpoint and its signer. */
  datatype ObsClient = ObsClient(region: Str, endpoint: Str, signature: ObsSignature)
  {
    /** The headers sent: the preset headers with the signer's Authorization merged in. */
    function SentHeaders(env: Environment, call: ApiCall): Arr<Str>
    {
      var preset := PresetHeaders(call.headers, env.date, HostName(endpoint, call.bucket));
      var text := StringToSignOf(call.verb, call.bucket, call.objectKey, call.query, preset);
      var value := AuthorizationValue(signature.accessKey, env.mac(signature.secretKey, text));
      var auth: Arr<Str> := [(AuthorizationHeader, value)];
      Merge(preset, auth)
    }

    /**
     * request: builds the URL, sets Date and Host, signs, merges the
     * Authorization header in, sends, and classifies the status.
     */
    method Request(env: Environment, call: ApiCall) returns (r: Result<RawResponse, Str>)
      ensures r == Classify(env.send(HttpRequest(call.verb, RequestUrl(endpoint, call, env.buildQuery),
                                                 SentHeaders(env, call), call.body)))
    {
      var host := HostName(endpoint, call.bucket);
      var path := RequestPath(call.objectKey);
      var url := HttpsUrl(host, path);
      if call.query != [] {
        url := WithQueryString(url, env.buildQuery(call.query));
      }
      var headers := call.headers;
      headers := Put(headers, DateHeader, env.date);
      headers := Put(headers, HostHeader, host);
      var auth := signature.SignRequest(env.mac, call.verb, call.bucket, call.objectKey, call.query, headers, call.body);
      headers := Merge(headers, auth);
      var response := env.send(HttpRequest(call.verb, url, headers, call.body));
      r := Classify(response);
    }

    /** createBucket: the Location body only with a Location; the headers as BucketHeaders says. */
    method CreateBucket(bucket: Str, options: BucketOptions) returns (call: ApiCall)
      ensures call.verb == PutMethod && call.bucket == bucket && call.objectKey == [] && call.query == []
      ensures call.body == if options.location.Some? then LocationBody(region, options.location.value) else []
      ensures call.headers == BucketHeaders(options)
    {
      var headers: Arr<Str> := [];
      var body: Str := [];
      if options.location.Some? {
        body := LocationBody(region, options.location.value);
        headers := Put(headers, ContentType, ApplicationXml);
      }
      assert headers == PutIfSet([], ContentType, if options.location.Some? then Some(ApplicationXml) else None);
      if options.storageClass.Some? {
        headers := Put(headers, StorageClass, options.storageClass.value);
      }
      if options.acl.Some? {
        headers := Put(headers, Acl, options.acl.value);
      }
      call := ApiCall(PutMethod, bucket, [], [], headers, body);
    }
  }

  /** `if (isset($v)) { $a[$k] = $v; }` */
  function PutIfSet(a: Arr<Str>, k: Str, v: Option<Str>): Arr<Str>
  {
    if v.Some? then Put(a, k, v.value) else a
  }

  /** createBucket's headers: the XML content type with a Location, the storage class, the ACL. */
  function BucketHeaders(options: BucketOptions): Arr<Str>
  {
    var typed := PutIfSet([], ContentType, if options.location.Some? then Some(ApplicationXml) else None);
    PutIfSet(PutIfSet(typed, StorageClass, options.storageClass), Acl, options.acl)
  }

  /** An isset assignment sets its key when the value is there and leaves every other key alone. */
  lemma PutIfSetGet(a: Arr<Str>, k: Str, v: Option<Str>, k': Str)
    ensures Get(PutIfSet(a, k, v), k') == if k' == k && v.Some? then v else Get(a, k')
  {
    if v.Some? {
      PutGet(a, k, v.value, k');
    }
  }

  /**
   * createBucket sends Content-Type application/xml exactly when a Location
   * is given, x-obs-storage-class and x-obs-acl exactly as given, and no
   * other header.
   */
  lemma BucketHeadersGet(options: BucketOptions, k: Str)
    ensures Get(BucketHeaders(options), k) ==
      if k == Acl then options.acl
      else if k == StorageClass then options.storageClass
      else if k == ContentType && options.location.Some? then Some(ApplicationXml)
      else None
  {
    var typed := PutIfSet([], ContentType, if options.location.Some? then Some(ApplicationXml) else None);
    PutIfSetGet([], ContentType, if options.location.Some? then Some(ApplicationXml) else None, k);
    PutIfSetGet(typed, StorageClass, options.storageClass, k);
    PutIfSetGet(PutIfSet(typed, StorageClass, options.storageClass), Acl, options.acl, k);
    BucketHeadersDistinct();
  }

  lemma BucketHeadersDistinct()
    ensures ContentType != StorageClass && ContentType != Acl && StorageClass != Acl
  {
    assert ContentType[0] == 'C' && StorageClass[0] == 'x';
    assert StorageClass[6] == 's' && Acl[6] == 'a';
  }

  /** Every key's value after one Put, stated for all keys at once. */
  lemma PutGetAll(a: Arr<Str>, k: Str, v: Str)
    ensures forall k' :: Get(Put(a, k, v), k') == if k' == k then Some(v) else Get(a, k')
  {
    forall k' {
      PutGet(a, k, v, k');
    }
  }

  // ================================================================ request properties

  /** The path begins with one '/', followed by the object key stripped of its leading slashes. */
  lemma {:induction false} RequestPathShape(objectKey: Str)
    ensures RequestPath(objectKey) == "/" + TrimLeft(objectKey, "/")
    ensures |RequestPath(objectKey)| > 1 ==> RequestPath(objectKey)[1] != '/'
    ensures forall i :: 0 <= i < |objectKey| - |RequestPath(objectKey)| + 1 ==> objectKey[i] == '/'
  {
    TrimLeftSpec(objectKey, "/");
  }

  /** Leading slashes on the object key make no difference to the path. */
  lemma {:induction false} RequestPathLeadingSlash(objectKey: Str)
    ensures RequestPath("/" + objectKey) == RequestPath(objectKey)
  {
    var s := "/" + objectKey;
    assert s[0] == '/' && s[1..] == objectKey;
    if objectKey == [] {
      assert TrimLeft(s[1..], "/") == [];
    }
  }

  /** The URL is https, the host, the path, and a query string exactly when the query is not empty. */
  lemma RequestUrlShape(endpoint: Str, call: ApiCall, buildQuery: Arr<QueryValue> -> Str)
    ensures HttpsUrl(HostName(endpoint, call.bucket), RequestPath(call.objectKey)) <= RequestUrl(endpoint, call, buildQuery)
    ensures call.query == [] <==>
      RequestUrl(endpoint, call, buildQuery) == HttpsUrl(HostName(endpoint, call.bucket), RequestPath(call.objectKey))
  {
  }

  /**
   * The headers sent: Date and Host overwrite whatever the caller gave,
   * Authorization carries the signature of the preset headers, and every
   * other header is the caller's.
   */
  lemma {:induction false} SentHeadersGet(client: ObsClient, env: Environment, call: ApiCall, k: Str)
    ensures var sent := client.SentHeaders(env, call);
      var host := HostName(client.endpoint, call.bucket);
      Get(sent, k) ==
        if k == AuthorizationHeader then
          Some(AuthorizationValue(client.signature.accessKey,
                                  env.mac(client.signature.secretKey,
                                          StringToSignOf(call.verb, call.bucket, call.objectKey, call.query,
                                                         PresetHeaders(call.headers, env.date, host)))))
        else if k == HostHeader then Some(host)
        else if k == DateHeader then Some(env.date)
        else Get(call.headers, k)
  {
    var host := HostName(client.endpoint, call.bucket);
    var dated := Put(call.headers, DateHeader, env.date);
    var preset := PresetHeaders(call.headers, env.date, host);
    var text := StringToSignOf(call.verb, call.bucket, call.objectKey, call.query, preset);
    var value := AuthorizationValue(client.signature.accessKey, env.mac(client.signature.secretKey, text));
    var auth: Arr<Str> := [(AuthorizationHeader, value)];
    MergeGet(preset, auth, k);
    assert HasKey(auth, k) <==> k == AuthorizationHeader;
    PutGet(dated, HostHeader, host, k);
    PutGet(call.headers, DateHeader, env.date, k);
  }

  /** Reads a failure message back into the status and the body. */
  function ReadFailureMessage(message: Str): Option<(int, Str)>
  {
    var prefix := "Request failed with status ";
    if !(prefix <= message) then None
    else
      var rest := message[|prefix|..];
      var n := Until(':', rest);
      if !(": " <= rest[n..]) then None
      else
        match ParseInt(rest[..n])
        case None => None
        case Some(status) => Some((status, rest[n..][2..]))
  }

  /** The failure message names the status and the body, and both can be read back from it. */
  lemma FailureMessageRoundTrip(status: int, body: Str)
    ensures ReadFailureMessage(FailureMessage(status, body)) == Some((status, body))
  {
    var prefix := "Request failed with status ";
    var number := IntToStr(status);
    var message := FailureMessage(status, body);
    IntToStrExcludes(status, ':');
    ConcatAssoc(prefix, number, ": ");
    ConcatAssoc(prefix + number, ": ", body);
    ConcatAssoc(prefix, number, ": " + body);
    assert message == prefix + (number + (": " + body));
    var rest := message[|prefix|..];
    assert rest == number + (": " + body);
    assert rest[|number|] == ':';
    assert Until(':', rest) == |number|;
    assert rest[..|number|] == number;
    assert rest[|number|..] == ": " + body;
    ParseIntToStr(status);
  }

  // ================================================================ the operations' calls

  /** putObject: application/octet-stream only when the caller gave no Content-Type. */
  method PutObject(bucket: Str, objectKey: Str, content: Str, headers: Arr<Str>) returns (call: ApiCall)
    ensures call.verb == PutMethod && call.bucket == bucket && call.objectKey == objectKey
    ensures call.query == [] && call.body == content
    ensures Get(call.headers, ContentType) == Some(Get(headers, ContentType).GetOr(OctetStream))
    ensures forall k :: k != ContentType ==> Get(call.headers, k) == Get(headers, k)
    ensures HasKey(headers, ContentType) ==> call.headers == headers
  {
    var h := headers;
    if !HasKey(h, ContentType) {
      PutGetAll(h, ContentType, OctetStream);
      h := Put(h, ContentType, OctetStream);
    }
    call := ApiCall(PutMethod, bucket, objectKey, [], h, content);
  }

  /** copyObject: x-obs-copy-source is "/bucket/object" of the source; a PUT to the destination. */
  method CopyObject(sourceBucket: Str, sourceObject: Str, destBucket: Str, destObject: Str, headers: Arr<Str>)
    returns (call: ApiCall)
    ensures call.verb == PutMethod && call.bucket == destBucket && call.objectKey == destObject
    ensures call.query == [] && call.body == []
    ensures Get(call.headers, CopySource) == Some("/" + sourceBucket + "/" + sourceObject)
    ensures forall k :: k != CopySource ==> Get(call.headers, k) == Get(headers, k)
  {
    var source: Str := "/" + sourceBucket + "/" + sourceObject;
    PutGetAll(headers, CopySource, source);
    var h := Put(headers, CopySource, source);
    call := ApiCall(PutMethod, destBucket, destObject, [], h, []);
  }

  /** deleteObjects: the Delete body POSTed to `?delete`, with its type and its MD5. */
  method DeleteObjects(md5: Str -> Str, bucket: Str, objects: seq<ObjectId>) returns (call: ApiCall)
    ensures call.verb == PostMethod && call.bucket == bucket && call.objectKey == []
    ensures call.query == [("delete", QStr([]))]
    ensures call.body == DeleteXml(objects)
    ensures call.headers == [(ContentType, ApplicationXml), (ContentMd5, md5(DeleteXml(objects)))]
  {
    var xml := DeleteObjectsBody(objects);
    var headers := [(ContentType, ApplicationXml), (ContentMd5, md5(xml))];
    call := ApiCall(PostMethod, bucket, [], [("delete", QStr([]))], headers, xml);
  }

  /** uploadPart: the part number (as a string) and the upload id in the query; a PUT of the content. */
  method UploadPart(bucket: Str, objectKey: Str, uploadId: Str, partNumber: int, content: Str)
    returns (call: ApiCall)
    ensures call.verb == PutMethod && call.bucket == bucket && call.objectKey == objectKey
    ensures call.headers == [] && call.body == content
    ensures |call.query| == 2 && call.query[0].0 == "partNumber" && call.query[1] == ("uploadId", QStr(uploadId))
    ensures call.query[0].1 == QStr(IntToStr(partNumber))
    ensures ParseInt(call.query[0].1.text) == Some(partNumber)
  {
    ParseIntToStr(partNumber);
    call := ApiCall(PutMethod, bucket, objectKey, [("partNumber", QStr(IntToStr(partNumber))), ("uploadId", QStr(uploadId))],
                    [], content);
  }

  /** uploadPart's result: the first value of the etag response header, or "" when there is none. */
  function UploadPartETag(headers: Arr<seq<Str>>): Str
  {
    match Get(headers, ETagHeader)
    case Some(values) => if values != [] then values[0] else []
    case None => []
  }

  /** The ETag depends on the etag header alone. */
  lemma {:induction false} UploadPartETagOf(headers: Arr<seq<Str>>, k: Str, values: seq<Str>)
    ensures k != ETagHeader ==> UploadPartETag(Put(headers, k, values)) == UploadPartETag(headers)
    ensures UploadPartETag(Put(headers, ETagHeader, values)) == if values != [] then values[0] else []
  {
    PutGet(headers, k, values, ETagHeader);
    PutGet(headers, ETagHeader, values, ETagHeader);
  }

  /** completeMultipartUpload: the part list POSTed with the upload id in the query. */
  method CompleteMultipartUpload(bucket: Str, objectKey: Str, uploadId: Str, parts: seq<Part>) returns (call: ApiCall)
    ensures call.verb == PostMethod && call.bucket == bucket && call.objectKey == objectKey
    ensures call.query == [("uploadId", QStr(uploadId))]
    ensures call.headers == [(ContentType, ApplicationXml)]
    ensures call.body == CompleteXml(parts)
  {
    var xml := CompleteMultipartUploadBody(parts);
    var headers := [(ContentType, ApplicationXml)];
    var query := [("uploadId", QStr(uploadId))];
    call := ApiCall(PostMethod, bucket, objectKey, query, headers, xml);
  }

  // ================================================================ the createBucket body

  const ConfigurationTag: Str := "CreateBucketConfiguration"
  const NamespaceHost: Str := " xmlns=\"http://obs."
  const LocationHead: Str := "<" + ConfigurationTag + NamespaceHost
  const LocationNamespace: Str := "/doc/2015-06-30/\">"

  /** The CreateBucketConfiguration body; the location is written as given, without escaping. */
  function LocationBody(region: Str, location: Str): Str
  {
    LocationHead + region + CloudDomain + LocationNamespace + Element("Location", location)
      + Close(ConfigurationTag)
  }

  /** Reads the location back out of a CreateBucketConfiguration body for the given region. */
  function ReadLocation(region: Str, body: Str): Option<Str>
  {
    var head := LocationHead + region + CloudDomain + LocationNamespace;
    if !(head <= body) then None
    else
      match ReadElement("Location", body[|head|..])
      case None => None
      case Some((location, rest)) => if rest == Close(ConfigurationTag) then Some(location) else None
  }

  /** A location holding no '<' can be read back from the body; one holding '<' is written unescaped. */
  lemma LocationRoundTrip(region: Str, location: Str)
    requires '<' !in location
    ensures ReadLocation(region, LocationBody(region, location)) == Some(location)
  {
    var head := LocationHead + region + CloudDomain + LocationNamespace;
    var close := Close(ConfigurationTag);
    var body := LocationBody(region, location);
    ConcatAssoc(head, Element("Location", location), close);
    assert body[|head|..] == Element("Location", location) + close;
    ReadElementOf("Location", location, close);
  }
}
