# Huawei OBS storage bundle, modelled in Dafny

This project models the request-building and virtual-directory core of a
PHP bundle that stores files in Huawei Object Storage Service (OBS). It has
five parts.

- **The OBS v1 signer** (`Signature`). It builds the string-to-sign of the
  "signature in header" scheme:
  - the verb, `Content-MD5`, `Content-Type` and `Date` lines;
  - the sorted block of `x-obs-*` headers;
  - the canonical resource, whose object key has the signer's own URL
    encoding, followed by the sorted sub-resources of the query.
  
  It then writes the `Authorization` header `OBS <access key>:<signature>`.
- **The REST client's request shaping** (`Client`, `RequestBodies`). This
  covers:
  - the constructor's defaults and credential check;
  - the host, path and URL of a request;
  - the `Date`, `Host` and `Authorization` headers;
  - the classification of the response status;
  - the arguments `putObject`, `copyObject`, `createBucket`, `uploadPart`,
    `deleteObjects` and `completeMultipartUpload` hand to `request`, with
    the two XML request bodies.
- **The Flysystem adapter** (`Adapter`). It maps a hierarchical filesystem
  onto the flat keys of a bucket. It works over an abstract client
  (`ClientInterface`) that records each call and answers from a finite
  script of replies, each either a result or a throw. It also relies on a
  path prefixer (`PathPrefix`).
- **The public URL generator** (`PublicUrl`).
- **The adapter factory's configuration check** (`Factory`).

Modules `Php`, `PhpArray`, `UrlEncoding` and `XmlText` model the PHP
built-ins these rely on, on byte strings:
- `strtolower`, `trim`, `ltrim`, `rtrim`, `substr`, `explode`, `implode`
  and `str_replace`;
- `$a[$k] = $v`, `array_merge` and `ksort`;
- `rawurlencode` and URL decoding;
- `htmlspecialchars` with `ENT_XML1 | ENT_QUOTES`.

## Modelling choices

**Methods and proofs**
- The following loops are methods with loops: the header loop of
  `stringToSign`, the sub-resource loops, the XML body loops,
  `extractOptionsFromConfig` and the two do-while loops of `listContents`
  and `deleteDirectory`.
- The generators' loops (`processObjectContents`,
  `processDirectoryPrefixes`) and the factory's required-key check are
  recursive functions.
- Each such method is proved against a function. Those functions carry the
  lemmas.

**Objects**
- The adapter is a class over a client object whose `trace` and `script`
  fields change with every call.
- The immutable objects (signer, client, URL generator, prefixer) are
  datatypes.
- Constructors that throw are functions or methods returning a `Result`.

**Values from outside**
- The HMAC-SHA1 and base64 signature is a function parameter, and so is MD5
  and base64 for `Content-MD5`.
- The clock, `http_build_query` and the HTTP transport are fields of an
  `Environment` value.

**The abstract client**
- Its listing result is a `Page`: `Contents`, the `Prefix` of each of
  `CommonPrefixes`, and `NextMarker`.
- The do-while loops therefore end, at the latest, when the script is used
  up. From then on the client answers an empty page: a `Page` with an empty
  `Contents`, no `CommonPrefixes` and no `NextMarker`, the shape the
  bundle's own `listObjects` returns.

**A consequence of the code.** `extractOptionsFromConfig` stores a
configured content type under the option key `ContentType`. Those options
are handed to `putObject` as headers. `putObject` looks for `Content-Type`,
so a configured content type never becomes the `Content-Type` header:
`Adapter.ConfigNeverSetsContentTypeHeader` proves that the options never
hold `Content-Type`.

**The request path is not URL-encoded.** `request` sends
`'/' . ltrim($object, '/')`, the raw object key
(`src/Client/ObsClient.php:512`). Only the signer encodes the key, and only
for the canonical resource.

## Model

| member | source | states |
|---|---|---|
| Signature.ObsSignature.SignRequest | src/Signature/ObsSignature.php:60-78 | The result is the single header `Authorization` => `OBS <access key>:<mac(secret key, string-to-sign)>`; the body plays no part |
| Signature.StringToSign | src/Signature/ObsSignature.php:96-154 | The string built step by step (header loop, ksort, line loop, resource) equals the string-to-sign function |
| Signature.StringToSignLayout | src/Signature/ObsSignature.php:103-105 | The string-to-sign is the verb, MD5, type and date lines (each "" when absent, the date "" under x-obs-date), then the sorted header block, then the canonical resource |
| Signature.ScanHeaderList | src/Signature/ObsSignature.php:109-130 | The header loop, run over the headers in order, ends in the state the scan function describes |
| Signature.ScanFields | src/Signature/ObsSignature.php:109-130 | After the header loop, MD5, type and date hold the last value of a header normalising to that name (or ""); each x-obs-* name holds the trimmed value of its last header; no other name is recorded |
| Signature.NormalizedNamesAgree | src/Signature/ObsSignature.php:110 | Header lists whose names trim and lower-case alike, with the same values, give the same loop state |
| Signature.IgnoredHeader | src/Signature/ObsSignature.php:109-130 | Inserting a header that is none of content-md5, content-type, date or x-obs-* anywhere leaves the loop state unchanged |
| Signature.IgnoredHeaderSigned | src/Signature/ObsSignature.php:60-69 | Such a header, Host for one, leaves the string-to-sign unchanged |
| Signature.LastHeader | src/Signature/ObsSignature.php:109-130 | Appending a header is one more pass of the loop body |
| Signature.EffectiveDateOf | src/Signature/ObsSignature.php:132-136 | The Date line is "" whenever a header normalises to x-obs-date, else the last Date value or "" |
| Signature.CanonicalHeadersBlock | src/Signature/ObsSignature.php:145-148 | The header block is in strictly increasing byte order of name and holds exactly the x-obs-* names, each with its trimmed last value |
| Signature.AppendHeaderLines | src/Signature/ObsSignature.php:146-148 | The loop appends one `key:value\n` line per entry, in order |
| Signature.CanonicalizedResource | src/Signature/ObsSignature.php:173-179 | Returns the basic resource followed by the sub-resource suffix |
| Signature.BasicResource | src/Signature/ObsSignature.php:181-193 | "/" without a bucket (the object ignored); "/bucket/" with no object; otherwise "/bucket/" and an encoding that decodes back to the object key |
| Signature.BuildSubResourcesQueryString | src/Signature/ObsSignature.php:198-210 | The loop-built suffix equals the suffix function: "" without sub-resources, else "?" and the sorted parts joined by '&' |
| Signature.SubResourceSuffix | src/Signature/ObsSignature.php:198-210 | The suffix is empty exactly when the query has no vocabulary key; the entries it lists are sorted and are exactly the vocabulary entries of the query |
| Signature.ExtractSubResources | src/Signature/ObsSignature.php:216-226 | The loop keeps the query entries whose key is in the vocabulary, in query order |
| Signature.SubResourcesSelected | src/Signature/ObsSignature.php:216-226 | The filtered array has unique keys and maps each vocabulary key to its query value and every other key to nothing |
| Signature.IgnoredQueryKey | src/Signature/ObsSignature.php:23-32 | Inserting a query key outside the case-sensitive vocabulary anywhere leaves the canonical resource unchanged |
| Signature.SubResourcesSkip | src/Signature/ObsSignature.php:219-223 | The filter drops an entry outside the vocabulary wherever it stands |
| Signature.SubResourcesAppend | src/Signature/ObsSignature.php:219-223 | One more query entry is one more pass of the filter loop |
| Signature.FormatSubResourceParts | src/Signature/ObsSignature.php:232-244 | The loop writes one part per entry, in order |
| Signature.PartsOf | src/Signature/ObsSignature.php:235-241 | One part per entry: the bare key for "" or null, else `key=value` unencoded |
| SignatureExamples.AclSubResource | tests/Signature/ObsSignatureTest.php:66-76 | The query `acl => ''` gives the suffix `?acl` |
| Signature.ObsUrlEncodeBytewise | src/Signature/ObsSignature.php:258-265 | rawurlencode followed by the two replacements equals a byte-by-byte encoding: '/' kept, ' ' to '+', every other byte as rawurlencode writes it |
| Signature.FirstReplacement | src/Signature/ObsSignature.php:261-263 | Replacing "%2F" in rawurlencode's output turns back exactly the escapes of '/' |
| Signature.SecondReplacement | src/Signature/ObsSignature.php:261-263 | Replacing "%20" then turns exactly the escapes of ' ' into '+' |
| Signature.RawByteIsSlashEscape | src/Signature/ObsSignature.php:261-263 | rawurlencode writes "%2F" exactly for '/' and "%20" exactly for ' ' |
| Signature.ObsUrlEncodeAlphabet | src/Signature/ObsSignature.php:258-265 | The encoding holds no space and no "%2F" |
| Signature.ObsUrlDecodeEncode | src/Signature/ObsSignature.php:258-265 | Decoding '+' as space and "%XY" as its byte recovers the input |
| Client.NewObsClient | src/Client/ObsClient.php:33-51 | Fails with "Missing access key or secret key" exactly when a key is empty; otherwise region defaults to cn-north-4, endpoint to obs.<region>.myhuaweicloud.com, and the signer holds the two keys |
| Client.ObsClient.Request | src/Client/ObsClient.php:508-604 | Sends the verb, the URL, the preset headers with the signer's Authorization merged in, and the body; returns the status classification of the answer |
| Client.RequestPathShape | src/Client/ObsClient.php:512 | The path is '/' followed by the object key without its leading slashes; "/" for an empty key |
| Client.RequestPathLeadingSlash | src/Client/ObsClient.php:512 | A leading '/' on the key does not change the path |
| Client.RequestUrlShape | src/Client/ObsClient.php:511-517 | The URL starts with `https://host` and the path; the host is `bucket.endpoint` with a bucket, else the endpoint; a query string follows exactly when the query is not empty |
| Client.SentHeadersGet | src/Client/ObsClient.php:520-535 | Date is the clock's value and Host the request host, overwriting the caller's; Authorization is the signature of those preset headers; every other header is the caller's |
| Client.Classify | src/Client/ObsClient.php:574-589 | A status of 300 or more fails with the status and the body; below 300 the response is returned whole |
| Client.FailureMessageRoundTrip | src/Client/ObsClient.php:582 | The message "Request failed with status N: body" can be read back into N and the body |
| Client.ObsClient.PutObject | src/Client/ObsClient.php:167-174 | A PUT of the content; Content-Type is the caller's, or application/octet-stream when the caller gave none; every other header is unchanged |
| Client.ObsClient.CopyObject | src/Client/ObsClient.php:353-358 | A PUT to the destination with x-obs-copy-source `/srcBucket/srcObject`; other headers unchanged |
| Client.ObsClient.CreateBucket | src/Client/ObsClient.php:72-95 | A PUT to the bucket; a Location body only when a location is given; the headers as BucketHeadersGet states |
| Client.BucketHeadersGet | src/Client/ObsClient.php:77-92 | Content-Type application/xml exactly when a location is given; x-obs-storage-class and x-obs-acl exactly as given; no other header |
| Client.PutIfSetGet | src/Client/ObsClient.php:86-92 | An isset assignment sets its key only when the value is present and leaves every other key alone |
| Client.LocationRoundTrip | src/Client/ObsClient.php:78-82 | A location without '<' can be read back from the body; the location is written unescaped |
| Client.ObsClient.DeleteObjects | src/Client/ObsClient.php:230-252 | A POST to `?delete` (empty value) with the Delete body, Content-Type application/xml and Content-MD5 of that body |
| Client.ObsClient.UploadPart | src/Client/ObsClient.php:408-415 | A PUT of the content with query partNumber, written exactly as `(string) $partNumber` (the canonical decimal form, which reads back to the number), and uploadId |
| Client.UploadPartETagOf | src/Client/ObsClient.php:417-419 | The ETag is the first `etag` header value or ""; no other header affects it |
| Client.ObsClient.CompleteMultipartUpload | src/Client/ObsClient.php:440-461 | A POST with query uploadId, Content-Type application/xml and the part-list body |
| RequestBodies.DeleteObjectsBody | src/Client/ObsClient.php:232-244 | The body built by the loop equals the Delete document of the entries |
| RequestBodies.AppendObjects | src/Client/ObsClient.php:235-242 | The loop appends one `<Object>` element per entry, in order |
| RequestBodies.DeleteXmlRoundTrip | src/Client/ObsClient.php:232-244 | Reading the Delete body back gives the entries, in order, with `<VersionId>` exactly when there was one, when their texts are UTF-8 |
| RequestBodies.ReadObjectOf | src/Client/ObsClient.php:236-241 | One `<Object>` element reads back to its entry, whatever follows it |
| RequestBodies.CompleteMultipartUploadBody | src/Client/ObsClient.php:442-452 | The body built by the loop equals the CompleteMultipartUpload document of the parts |
| RequestBodies.AppendParts | src/Client/ObsClient.php:445-450 | The loop appends one `<Part>` element per part, in order |
| RequestBodies.CompleteXmlRoundTrip | src/Client/ObsClient.php:442-452 | Reading the body back gives the parts in order: number as written, ETag unescaped |
| RequestBodies.ReadPartOf | src/Client/ObsClient.php:446-449 | One `<Part>` element reads back to its part, whatever follows it |
| XmlText.XmlUnescapeEscape | src/Client/ObsClient.php:237 | Unescaping the five entities undoes htmlspecialchars on UTF-8 text |
| XmlText.XmlEscape | src/Client/ObsClient.php:237 | Text that is not UTF-8 escapes to "" |
| XmlText.EscapedHasNoMarkup | src/Client/ObsClient.php:237 | Escaped text holds none of `< > " '` |
| XmlText.ReadElementOf | src/Client/ObsClient.php:237 | An element whose text holds no '<' reads back exactly |
| ClientInterface.ScriptedClient.Perform | tests/Adapter/TestObsClient.php:40-52 | Each call is appended to the trace and answered with the next scripted reply (an empty result once the script is used up) |
| ClientInterface.NextReply | tests/Adapter/TestObsClient.php:46-51 | The next reply is the head of the script, or an empty result when the script is empty |
| Adapter.NewAdapter | src/Adapter/HuaweiObsAdapter.php:50-60 | Fails with "Bucket name cannot be empty" exactly when the bucket is empty; otherwise keeps the client, the bucket and the prefixer |
| Adapter.HuaweiObsAdapter.constructor | src/Adapter/HuaweiObsAdapter.php:50-60 | Keeps the client, the bucket and the prefixer of the prefix |
| Adapter.HuaweiObsAdapter.FileExists | src/Adapter/HuaweiObsAdapter.php:62-73 | One headObject on the file's key; true exactly when it returns, false when it throws |
| Adapter.HuaweiObsAdapter.DirectoryExists | src/Adapter/HuaweiObsAdapter.php:75-91 | One listObjects with the directory prefix and max-keys 1; true exactly when it returns non-empty Contents, false when it throws |
| Adapter.HuaweiObsAdapter.Write | src/Adapter/HuaweiObsAdapter.php:93-103 | One putObject of the contents at the file's key with the config's options; a throw becomes a write failure at the path |
| Adapter.HuaweiObsAdapter.Delete | src/Adapter/HuaweiObsAdapter.php:157-166 | One deleteObject at the file's key; a throw becomes a delete failure at the path |
| Adapter.HuaweiObsAdapter.CreateDirectory | src/Adapter/HuaweiObsAdapter.php:201-213 | One putObject of an empty body, with no headers, at the directory's key; a throw becomes a create-directory failure |
| Adapter.HuaweiObsAdapter.Copy | src/Adapter/HuaweiObsAdapter.php:391-411 | One copyObject inside the bucket, between the two file keys, with the config's options; a throw becomes a copy failure |
| Adapter.HuaweiObsAdapter.Move | src/Adapter/HuaweiObsAdapter.php:381-389 | Copy, then delete the source; a failed copy makes no delete; a failed delete leaves the copy; either is a move failure wrapping its cause |
| Adapter.HuaweiObsAdapter.SetVisibility | src/Adapter/HuaweiObsAdapter.php:215-221 | Always fails at the path, without calling the client |
| Adapter.HuaweiObsAdapter.Visibility | src/Adapter/HuaweiObsAdapter.php:223-230 | Always the file at the path with visibility private and nothing else set, without calling the client |
| Adapter.HuaweiObsAdapter.ListContents | src/Adapter/HuaweiObsAdapter.php:292-312 | Makes exactly the calls of the marker-driven paging from the directory key; yields, page after page, each page's files then its directories; a throw ends it with "Unable to list contents: " and the message |
| Adapter.BuildListObjectsOptionsGet | src/Adapter/HuaweiObsAdapter.php:317-331 | The query maps prefix to the location and marker to the marker (null first); delimiter '/' exactly when not deep; nothing else |
| Adapter.PagesCallCount | src/Adapter/HuaweiObsAdapter.php:299-311 | Paging makes one listObjects call per page it received, plus one when a call threw |
| Adapter.PagesCalls | src/Adapter/HuaweiObsAdapter.php:299-311 | Call i carries the listed location and the NextMarker of page i-1, the first call no marker |
| Adapter.PagesStop | src/Adapter/HuaweiObsAdapter.php:309-311 | Paging goes on exactly while pages carry a NextMarker: every page but the last has one, and a paging that did not fail ends at a page without one |
| Adapter.ProcessObjectContents | src/Adapter/HuaweiObsAdapter.php:337-361 | Yields at most one entry per object, each a file with no visibility and no MIME type; the lemmas below pin each entry to a non-marker object and every non-marker object to an entry |
| Adapter.ProcessObjectContentsLists | src/Adapter/HuaweiObsAdapter.php:337-361 | Every object whose key does not end in '/' is yielded as a file at its stripped key with its size and time |
| Adapter.ProcessObjectContentsFrom | src/Adapter/HuaweiObsAdapter.php:345-358 | Every yielded entry is the file of some object whose key does not end in '/': its stripped key, size and time |
| Adapter.MarkerSkipped | src/Adapter/HuaweiObsAdapter.php:348-351 | An object whose key ends in '/' yields nothing wherever it stands, the marker of the prefix itself (which strips to "") included |
| Adapter.ProcessObjectContentsAppend | src/Adapter/HuaweiObsAdapter.php:345-358 | The files of two runs of objects are the files of the first run followed by those of the second |
| Adapter.ProcessObjectContentsNoSlash | src/Adapter/HuaweiObsAdapter.php:345-352 | No yielded file path ends in '/' |
| Adapter.ProcessDirectoryPrefixes | src/Adapter/HuaweiObsAdapter.php:367-379 | Nothing when deep; otherwise one directory per common prefix |
| Adapter.Directories | src/Adapter/HuaweiObsAdapter.php:375-378 | Each directory is its common prefix, stripped of the prefix and right-trimmed of '/' |
| Adapter.ProcessDirectoryPrefixesNoSlash | src/Adapter/HuaweiObsAdapter.php:367-379 | No yielded directory path ends in '/' |
| Adapter.DeepListingHasOnlyFiles | src/Adapter/HuaweiObsAdapter.php:367-379 | A deep listing yields only files |
| Adapter.ListingHasNoTrailingSlash | src/Adapter/HuaweiObsAdapter.php:299-311 | No path a listing yields ends in '/' |
| Adapter.HuaweiObsAdapter.DeleteDirectory | src/Adapter/HuaweiObsAdapter.php:168-199 | Pages from the directory key without delimiter, gathers every key of every page, then makes exactly one deleteObjects with them, or none when nothing was found; any throw is a directory-delete failure |
| Adapter.AppendIds | src/Adapter/HuaweiObsAdapter.php:183-187 | The inner loop appends `['Key' => key]` for each object of the page, in order |
| Adapter.CollectedIdsHasEveryKey | src/Adapter/HuaweiObsAdapter.php:177-189 | Every object of every page is gathered for deletion, directory markers included |
| Adapter.CollectedIdsEmpty | src/Adapter/HuaweiObsAdapter.php:192-194 | Nothing is gathered, and so no batch delete is made, exactly when every page is empty |
| Adapter.ExtractOptionsFromConfig | src/Adapter/HuaweiObsAdapter.php:416-433 | The loop-built options equal the options function of the config |
| Adapter.ConfigOptionsGet | src/Adapter/HuaweiObsAdapter.php:416-433 | ContentType maps to the configured type when set; x-obs-meta-k maps to metadata entry k; no other key is set |
| Adapter.MetaOptionsGet | src/Adapter/HuaweiObsAdapter.php:425-429 | Each metadata entry k => v sets x-obs-meta-k to v; every other key keeps its value |
| Adapter.ConfigNeverSetsContentTypeHeader | src/Adapter/HuaweiObsAdapter.php:420-422 | The options never hold the key Content-Type |
| Adapter.EmptyConfigOptions | tests/Adapter/HuaweiObsAdapterTest.php:73 | A config with no content type and no metadata gives no options |
| PathPrefix.NewPrefixerShape | src/Adapter/HuaweiObsAdapter.php:59 | The prefix is empty (exactly when the given prefix is all '/') or ends in exactly one '/' |
| PathPrefix.StripPrefixPath | src/Adapter/HuaweiObsAdapter.php:346 | Stripping the prefix from a file key gives the path without its leading slashes |
| PathPrefix.PrefixDirectoryPathShape | src/Adapter/HuaweiObsAdapter.php:170 | A directory key starts with the prefix and ends in '/' unless empty; it is empty only for the root with no prefix |
| PathPrefix.DirectoryIsFileWithSlash | src/Adapter/HuaweiObsAdapter.php:206 | A directory's key is its file key followed by '/' |
| PathPrefixExamples.FileKeyExample | tests/Adapter/HuaweiObsAdapterTest.php:51 | Prefix test-prefix and test.txt give test-prefix/test.txt |
| PathPrefixExamples.DirectoryKeyExample | tests/Adapter/HuaweiObsAdapterTest.php:135 | The directory folder lists under test-prefix/folder/ |
| PathPrefixExamples.StripExample | tests/Adapter/HuaweiObsAdapterTest.php:129 | The key test-prefix/folder/file1.txt lists as folder/file1.txt |
| PublicUrl.StripSchemeOf | src/Adapter/PublicUrlGenerator.php:38 | One leading https:// or http:// is removed; a host without one is unchanged |
| PublicUrl.NewPublicUrlGenerator | src/Adapter/PublicUrlGenerator.php:31-47 | The base is https://bucket.host in the OBS format and https://host otherwise, the bucket ignored |
| PublicUrl.ObjectPathJoin | src/Adapter/PublicUrlGenerator.php:52 | With a prefix, the object path is prefix, one '/', and the path without leading slashes |
| PublicUrl.EncodeSegments | src/Adapter/PublicUrlGenerator.php:55 | Each segment is rawurlencoded on its own |
| PublicUrl.EncodePathSegments | src/Adapter/PublicUrlGenerator.php:55 | Splitting the encoded path at '/' gives the encoded segments: the '/'s are exactly the path's own |
| PublicUrl.EncodePathHasNoSpace | src/Adapter/PublicUrlGenerator.php:55 | The encoded path holds no space |
| PublicUrl.DecodeEncodePath | src/Adapter/PublicUrlGenerator.php:55 | Percent-decoding each segment of the encoded path recovers the object path |
| PublicUrl.PublicUrlShape | src/Adapter/PublicUrlGenerator.php:49-58 | The URL is the base, '/', and an encoded path that decodes back to the object path |
| Factory.CheckKeyCases | src/Factory/ObsAdapterFactory.php:71-76 | A required key fails as missing exactly when unset or null, and as "must be a non-empty string" when not a string or only whitespace |
| Factory.ValidateFirstFailure | src/Factory/ObsAdapterFactory.php:69-77 | Validation passes exactly when every key passes; otherwise it reports the first key that fails, in order |
| Factory.CreateFromConfig | src/Factory/ObsAdapterFactory.php:66-87 | A failed validation is a configuration error with its message; success implies the required keys passed |
| Factory.CreateFromConfigValues | src/Factory/ObsAdapterFactory.php:79-86 | The required values are the configuration's own non-blank strings; prefix defaults to "", region and endpoint to null, otherwise passed unchanged |
| Factory.Create | src/Factory/ObsAdapterFactory.php:32-49 | Fails exactly when a key or the bucket is empty; otherwise builds the client from the keys, region and endpoint, and the adapter from bucket and prefix |
| Factory.ValidConfigBuilds | tests/Factory/ObsAdapterFactoryTest.php:68-122 | A configuration that passes validation always builds |
| PhpArray.KSortPermutes | src/Signature/ObsSignature.php:145 | ksort keeps every entry |
| PhpArray.KSortSorted | src/Signature/ObsSignature.php:145 | ksort of unique keys leaves them in strictly increasing byte order |
| PhpArray.PutGet | src/Client/ObsClient.php:521-522 | After `$a[$k] = $v`, k maps to v and every other key keeps its value |
| PhpArray.MergeGet | src/Client/ObsClient.php:535 | After array_merge, a key of the second array has its value and any other key keeps the first's |
| Php.ToLowerIdempotent | src/Signature/ObsSignature.php:110 | strtolower is idempotent |
| Php.TrimLeftSpec | src/Client/ObsClient.php:512 | ltrim removes a prefix of the listed bytes and stops at the first other byte |
| Php.ParseIntToStr | src/Client/ObsClient.php:411 | `(string) $n` reads back to n |
| Php.IntToStrCanonical | src/Client/ObsClient.php:411 | `(string) $n` is the canonical decimal form: digits only for n >= 0, '-' then digits otherwise, no leading zero except in "0", and "0" only for 0 |
| Php.NatToStrLeading | src/Client/ObsClient.php:411 | The decimal form of a natural number starts with '0' exactly when the number is 0, and is then "0" |
| Php.ImplodeExplode | src/Adapter/PublicUrlGenerator.php:55 | Imploding the pieces of explode gives back the string |
| Php.ExplodeImplode | src/Adapter/PublicUrlGenerator.php:55 | Exploding what implode joined gives back the pieces when none holds the separator |
| UrlEncoding.RawUrlDecodeEncode | src/Adapter/PublicUrlGenerator.php:55 | Percent-decoding rawurlencode's output gives back the input |
| UrlEncoding.RawUrlEncodeAlphabet | src/Adapter/PublicUrlGenerator.php:55 | rawurlencode writes only unreserved bytes and "%XY" escapes |

## Left out

- HMAC-SHA1, base64 and MD5 are function parameters, not computed (`src/Signature/ObsSignature.php:279-284`, `src/Client/ObsClient.php:248`).
- The `gmdate` clock and `http_build_query` are fields of the `Environment`; the URL's query string is whatever `http_build_query` returns.
- The HTTP transport is a function of the request. Logging, timing and the wrapping of transport exceptions are not modelled (`src/Client/ObsClient.php:538-603`).
- The response XML parsing of `listBuckets`, `listObjects` and `initiateMultipartUpload` is not modelled; a listing result is the `Page` record.
- The client operations that only call `request` (deleteBucket, listBuckets, getObject, deleteObject, headObject, listObjects, initiateMultipartUpload, abortMultipartUpload) are not modelled beyond `request` itself.
- The adapter's `read`, `readStream`, `writeStream`, `mimeType`, `lastModified` and `fileSize` are stream handling or `strtotime` date parsing and are not modelled. `lastModified` of a listed object is taken as already parsed.
- Adapter.HuaweiObsAdapter.ListContents: the generator's laziness is not modelled. The entries are collected, and a throw returns the entries of the earlier pages with the failure.
- Adapter.HuaweiObsAdapter.DirectoryExists, ListContents and DeleteDirectory: a listing result without a `Contents` key is not modelled; every `Page` has a (possibly empty) contents list, as `ObsClient::listObjects` always sets one (`src/Client/ObsClient.php:305`). For such a result the source's `directoryExists` returns true, since `[] !== null` (`src/Adapter/HuaweiObsAdapter.php:87`), and the loops of `listContents` and `deleteDirectory` iterate over `null`.
- ClientInterface.ScriptedClient.Perform: a client that neither throws nor returns is not modelled. Once the script is used up the client answers an empty result.
- PathPrefix.NewPrefixer: League's `PathPrefixer` is not part of this model. The prefixer holds only what the adapter's tests pin down. The prefix is right-trimmed of '/' and given one '/', file keys drop leading slashes, and stripping cuts the prefix's length.
- Adapter.HuaweiObsAdapter.FileExists, DirectoryExists, Write, Delete, CreateDirectory, Copy, Move, ListContents and DeleteDirectory: a `Thrown` reply stands for an exception of the classes the adapter catches (`ObsException`, `TransportExceptionInterface`, `\RuntimeException`; `src/Adapter/HuaweiObsAdapter.php:163`, 196, 210, 308, 386, 408). Any other throwable, which the source lets escape unwrapped (so `fileExists` then does not return false), is not modelled.
- RequestBodies.CompleteMultipartUploadBody: part numbers are integers. A string `PartNumber`, which the source writes into the XML verbatim and unescaped (`src/Client/ObsClient.php:447`), is not modelled.
- Adapter.HuaweiObsAdapter.Write and the other adapter methods: the thrown exceptions are error values. Their message texts from League are not modelled beyond the location and the cause.
- Factory.CreateFromConfig: an optional value that is neither a string nor null is a `TypeError`. PHP would raise it when calling `create` under strict types.
- `src/Factory/FilesystemFactoryDecorator.php`, the bundle and dependency-injection classes, and `docs/examples/` are not part of this model.
- PHP arrays with integer keys and headers whose value is null are not modelled: headers and query keys are strings, and query values are strings, integers or null.
- Signature.ObsSignature.SignRequest: the body parameter is accepted and ignored, as in the source.
