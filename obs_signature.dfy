/** The sub-resource vocabulary, kept apart so that only the proofs about it see its 51 words. */
module SubResourceVocabulary {
  /** The query keys that take part in the canonical resource; matched with case. */
  function SubResources(): set<string>
  {
    {
    "CDNNotifyConfiguration", "acl", "append", "attname", "backtosource", "cors", "customdomain", "delete",
    "deletebucket", "directcoldaccess", "encryption", "inventory", "length", "lifecycle", "location", "logging",
    "metadata", "modify", "name", "notification", "partNumber", "policy", "position", "quota", "rename",
    "replication", "response-cache-control", "response-content-disposition", "response-content-encoding",
    "response-content-language", "response-content-type", "response-expires", "restore", "storageClass",
    "storagePolicy", "storageinfo", "tagging", "torrent", "truncate", "uploadId", "uploads", "versionId",
    "versioning", "versions", "website", "x-image-process", "x-image-save-bucket", "x-image-save-object",
    "x-obs-security-token", "object-lock", "retention"
    }
  }
}

/**
 * The OBS v1 "signature in header" scheme: the string-to-sign built from the
 * verb, three standard headers, the sorted `x-obs-*` headers and the
 * canonical resource, and the `Authorization: OBS ak:signature` header.
 * HMAC-SHA1 followed by Base64 is a parameter `mac(key, message)`.
 */
module Signature {
  import opened SubResourceVocabulary
  import opened Wrappers
  import opened Php
  import opened PhpArray
  import opened UrlEncoding

  /** Header names with this prefix make up the canonical header block. */
  const ObsPrefix: Str := "x-obs-"

  /** A query-string value as callers pass it: null, a string, or an integer. */
  datatype QueryValue = QNull | QStr(text: Str) | QInt(number: int)

  /** How PHP's `.` writes a query value into a string. */
  function ValueText(v: QueryValue): Str
  {
    match v
    case QNull => []
    case QStr(s) => s
    case QInt(i) => IntToStr(i)
  }

  // ================================================================ object key encoding

  /** The signer's urlEncode: rawurlencode, then "%2F" back to "/", then "%20" to "+". */
  function ObsUrlEncode(s: Str): Str
  {
    StrReplace(StrReplace(RawUrlEncode(s), "%2F", "/"), "%20", "+")
  }

  /** What the signer's urlEncode writes for one byte, stated directly. */
  function ObsByte(c: Byte): Str
  {
    if c == '/' then "/" else if c == ' ' then "+" else RawByte(c)
  }

  /** Byte-by-byte reference encoding. */
  function ObsEncodeBytes(s: Str): Str
    decreases |s|
  {
    if s == [] then [] else ObsByte(s[0]) + ObsEncodeBytes(s[1..])
  }

  /** Only '/' slips through the first replacement. */
  function SlashKept(c: Byte): Str
  {
    if c == '/' then "/" else RawByte(c)
  }

  function SlashKeptBytes(s: Str): Str
    decreases |s|
  {
    if s == [] then [] else SlashKept(s[0]) + SlashKeptBytes(s[1..])
  }

  /** One encoded byte followed by anything: the replacement treats the token on its own. */
  lemma ReplaceToken(t: Str, rest: Str, from: Str, to: Str)
    requires |from| == 3 && from[0] == '%'
    requires (|t| == 1 && t[0] != '%') || (|t| == 3 && t[0] == '%' && t[1] != '%' && t[2] != '%')
    ensures StrReplace(t + rest, from, to) == (if t == from then to else t) + StrReplace(rest, from, to)
  {
    if |t| == 1 {
      assert t + rest == [t[0]] + rest;
      StrReplaceSkip(t[0], rest, from, to);
    } else if t == from {
      var s := t + rest;
      assert s[..3] == from && s[3..] == rest;
    } else {
      ReplaceOtherEscape(t, rest, from, to);
    }
  }

  /** An escape other than the searched one is copied whole: neither of its last two bytes can start a match. */
  lemma ReplaceOtherEscape(t: Str, rest: Str, from: Str, to: Str)
    requires |from| == 3 && from[0] == '%'
    requires |t| == 3 && t[0] == '%' && t[1] != '%' && t[2] != '%' && t != from
    ensures StrReplace(t + rest, from, to) == t + StrReplace(rest, from, to)
  {
    var s := t + rest;
    assert s[..3] == t;
    var tail := [t[2]] + rest;
    assert s[1..] == [t[1]] + tail;
    StrReplaceSkip(t[2], rest, from, to);
    StrReplaceSkip(t[1], tail, from, to);
    assert t == [t[0]] + [t[1]] + [t[2]];
  }

  lemma RawByteIsSlashEscape(c: Byte)
    ensures RawByte(c) == "%2F" <==> c == '/'
    ensures RawByte(c) == "%20" <==> c == ' '
    ensures RawByte(c)[0] == '%' ==> |RawByte(c)| == 3 && RawByte(c)[1] != '%' && RawByte(c)[2] != '%'
    ensures RawByte(c)[0] != '%' ==> |RawByte(c)| == 1
  {
    if RawByte(c) == "%2F" {
      assert HexValue('2') * 16 + HexValue('F') == c as int;
    }
    if RawByte(c) == "%20" {
      assert HexValue('2') * 16 + HexValue('0') == c as int;
    }
  }

  lemma {:induction false} FirstReplacement(s: Str)
    ensures StrReplace(RawUrlEncode(s), "%2F", "/") == SlashKeptBytes(s)
    decreases |s|
  {
    if s != [] {
      RawByteIsSlashEscape(s[0]);
      ReplaceToken(RawByte(s[0]), RawUrlEncode(s[1..]), "%2F", "/");
      FirstReplacement(s[1..]);
    }
  }

  lemma {:induction false} SecondReplacement(s: Str)
    ensures StrReplace(SlashKeptBytes(s), "%20", "+") == ObsEncodeBytes(s)
    decreases |s|
  {
    if s != [] {
      RawByteIsSlashEscape(s[0]);
      ReplaceToken(SlashKept(s[0]), SlashKeptBytes(s[1..]), "%20", "+");
      SecondReplacement(s[1..]);
    }
  }

  /** The two replacements act byte by byte: '/' stays, ' ' becomes '+', the rest as rawurlencode. */
  lemma {:induction false} ObsUrlEncodeBytewise(s: Str)
    ensures ObsUrlEncode(s) == ObsEncodeBytes(s)
  {
    FirstReplacement(s);
    SecondReplacement(s);
  }

  /** No space, and no '%' followed by "2F". */
  predicate NoSpaceNoSlashEscape(e: Str)
  {
    && (forall i :: 0 <= i < |e| ==> e[i] != ' ')
    && (forall i :: 0 <= i && i + 2 < |e| && e[i] == '%' ==> e[i + 1] != '2' || e[i + 2] != 'F')
  }

  /** What the encoding writes for one byte: a plain byte, or an escape other than "%2F". */
  predicate EncodedToken(t: Str)
  {
    || (|t| == 1 && t[0] != '%' && t[0] != ' ')
    || (|t| == 3 && t[0] == '%' && t[1] != '%' && t[2] != '%' && t[1] != ' ' && t[2] != ' ' && (t[1] != '2' || t[2] != 'F'))
  }

  lemma ObsByteToken(c: Byte)
    ensures EncodedToken(ObsByte(c))
  {
    RawByteIsSlashEscape(c);
    var t := ObsByte(c);
    if c != '/' && c != ' ' && |t| == 3 {
      assert IsHexDigit(t[1]) && IsHexDigit(t[2]);
      assert t == [t[0], t[1], t[2]] && t != "%2F";
    }
  }

  lemma TokenPrepend(t: Str, rest: Str)
    requires EncodedToken(t) && NoSpaceNoSlashEscape(rest)
    ensures NoSpaceNoSlashEscape(t + rest)
  {
    var e := t + rest;
    forall i | 0 <= i < |e| ensures e[i] != ' ' {
      if i >= |t| { assert e[i] == rest[i - |t|]; }
    }
    forall i | 0 <= i && i + 2 < |e| && e[i] == '%' ensures e[i + 1] != '2' || e[i + 2] != 'F' {
      if i >= |t| {
        assert e[i + 1] == rest[i - |t| + 1] && e[i + 2] == rest[i - |t| + 2];
      } else if i == 0 {
        assert e[1] == t[1] && e[2] == t[2];
      }
    }
  }

  lemma {:induction false} ObsEncodeBytesShape(s: Str)
    ensures NoSpaceNoSlashEscape(ObsEncodeBytes(s))
    decreases |s|
  {
    if s != [] {
      ObsEncodeBytesShape(s[1..]);
      ObsByteToken(s[0]);
      TokenPrepend(ObsByte(s[0]), ObsEncodeBytes(s[1..]));
    }
  }

  /** The signer's encoding never writes a space and never writes "%2F". */
  lemma {:induction false} ObsUrlEncodeAlphabet(s: Str)
    ensures forall i :: 0 <= i < |ObsUrlEncode(s)| ==> ObsUrlEncode(s)[i] != ' '
    ensures forall i :: 0 <= i && i + 2 < |ObsUrlEncode(s)| && ObsUrlEncode(s)[i] == '%' ==>
      ObsUrlEncode(s)[i + 1] != '2' || ObsUrlEncode(s)[i + 2] != 'F'
  {
    ObsUrlEncodeBytewise(s);
    ObsEncodeBytesShape(s);
  }

  lemma {:induction false} DecodeObsEncodeBytes(s: Str)
    ensures PercentDecode(ObsEncodeBytes(s), true) == s
    decreases |s|
  {
    if s != [] {
      DecodeObsByte(s[0], ObsEncodeBytes(s[1..]));
      DecodeObsEncodeBytes(s[1..]);
      ConsTail(s);
    }
  }

  /** Decoding the signer's encoding of one byte gives the byte back, whatever follows. */
  lemma DecodeObsByte(c: Byte, rest: Str)
    ensures PercentDecode(ObsByte(c) + rest, true) == [c] + PercentDecode(rest, true)
  {
    if c == '/' || c == ' ' {
      assert (ObsByte(c) + rest)[1..] == rest;
    } else {
      DecodeRawByte(c, rest, true);
    }
  }

  /** urldecode undoes the signer's encoding: '+' back to space, "%XY" back to the byte. */
  lemma {:induction false} ObsUrlDecodeEncode(s: Str)
    ensures PercentDecode(ObsUrlEncode(s), true) == s
  {
    ObsUrlEncodeBytewise(s);
    DecodeObsEncodeBytes(s);
  }

  // ================================================================ canonical resource

  /** buildBasicResource: "/" without a bucket, else "/bucket/" and the encoded key. */
  function BasicResource(bucket: Str, objectKey: Str): (r: Str)
    ensures bucket == [] ==> r == "/"
    ensures bucket != [] ==> StartsWith(r, "/" + bucket + "/")
    ensures bucket != [] ==> PercentDecode(r[|bucket| + 2..], true) == objectKey
    ensures bucket != [] && objectKey == [] ==> r == "/" + bucket + "/"
  {
    if bucket == [] then "/"
    else
      var head := "/" + bucket + "/";
      var tail := if objectKey == [] then [] else ObsUrlEncode(objectKey);
      ObsUrlDecodeEncode(objectKey);
      assert (head + tail)[|bucket| + 2..] == tail;
      head + tail
  }

  /** extractSubResources: the entries whose key is in the vocabulary, in query order. */
  function SubResourcesOf(query: Arr<QueryValue>): Arr<QueryValue>
    decreases |query|
  {
    if query == [] then []
    else
      var n := |query| - 1;
      var subs := SubResourcesOf(query[..n]);
      if query[n].0 in SubResources() then Put(subs, query[n].0, query[n].1) else subs
  }

  /** One entry of the sub-resource suffix: the bare key for "" or null, else "key=value". */
  function SubResourcePart(entry: (Str, QueryValue)): Str
  {
    if entry.1 == QNull || entry.1 == QStr([]) then entry.0 else entry.0 + "=" + ValueText(entry.1)
  }

  /** formatSubResourceParts */
  function PartsOf(subs: Arr<QueryValue>): (parts: seq<Str>)
    ensures |parts| == |subs|
    ensures forall i :: 0 <= i < |subs| ==> parts[i] == SubResourcePart(subs[i])
    decreases |subs|
  {
    if subs == [] then [] else PartsOf(subs[..|subs| - 1]) + [SubResourcePart(subs[|subs| - 1])]
  }

  /** buildSubResourcesQueryString: "" or "?" and the sorted parts joined by '&'. */
  function SubResourceQuery(query: Arr<QueryValue>): Str
  {
    var subs := SubResourcesOf(query);
    if subs == [] then [] else "?" + Implode("&", PartsOf(KSort(subs)))
  }

  /** canonicalizedResource */
  function CanonicalResource(bucket: Str, objectKey: Str, query: Arr<QueryValue>): Str
  {
    BasicResource(bucket, objectKey) + SubResourceQuery(query)
  }

  /**
   * The vocabulary filter keeps exactly the vocabulary keys of a query (whose
   * keys are unique, as in every PHP array), each with its value.
   */
  lemma {:induction false} SubResourcesSelected(query: Arr<QueryValue>)
    requires UniqueKeys(query)
    ensures UniqueKeys(SubResourcesOf(query))
    ensures forall k :: Get(SubResourcesOf(query), k) == if k in SubResources() then Get(query, k) else None
    decreases |query|
  {
    if query != [] {
      var n := |query| - 1;
      var init, e := query[..n], query[n];
      assert query == init + [e];
      assert UniqueKeys(init);
      SubResourcesSelected(init);
      var subs := SubResourcesOf(init);
      assert !HasKey(init, e.0) by {
        forall i | 0 <= i < |init| ensures init[i].0 != e.0 {
          assert init[i] == query[i];
        }
      }
      SubResourcesAppend(init, e);
      if e.0 in SubResources() {
        PutKeys(subs, e.0, e.1);
      }
      forall k ensures Get(SubResourcesOf(query), k) == if k in SubResources() then Get(query, k) else None {
        GetAppend(init, e, k);
        if e.0 in SubResources() {
          PutGet(subs, e.0, e.1, k);
        }
      }
    }
  }

  /** Looking up a key in an array with one more entry at the end. */
  lemma {:induction false} GetAppend<V>(a: Arr<V>, e: (Str, V), k: Str)
    requires !HasKey(a, e.0)
    ensures Get(a + [e], k) == if k == e.0 then Some(e.1) else Get(a, k)
    decreases |a|
  {
    if a != [] {
      assert (a + [e])[1..] == a[1..] + [e];
      assert !HasKey(a[1..], e.0) by {
        forall i | 0 <= i < |a[1..]| ensures a[1..][i].0 != e.0 {
          assert a[1..][i] == a[i + 1];
        }
      }
      GetAppend(a[1..], e, k);
    } else {
      assert a + [e] == [e];
    }
  }

  /**
   * The sub-resource suffix is "" exactly when no vocabulary key occurs in
   * the query; the entries it lists are sorted and are exactly the
   * vocabulary entries of the query.
   */
  lemma {:induction false} SubResourceSuffix(query: Arr<QueryValue>)
    requires UniqueKeys(query)
    ensures SubResourceQuery(query) == [] <==> forall k :: k in SubResources() ==> !HasKey(query, k)
    ensures SortedByKey(KSort(SubResourcesOf(query)))
    ensures forall k :: Get(KSort(SubResourcesOf(query)), k)
                     == if k in SubResources() then Get(query, k) else None
  {
    SubResourcesSelected(query);
    var subs := SubResourcesOf(query);
    KSortSorted(subs);
    KSortPermutes(subs);
    SortedUnique(KSort(subs));
    forall k ensures Get(KSort(subs), k) == Get(subs, k) {
      GetOfPermutation(KSort(subs), subs, k);
    }
    if subs != [] {
      assert Get(subs, subs[0].0).Some?;
    }
  }

  /** A query key outside the vocabulary leaves the canonical resource as it was. */
  lemma {:induction false} IgnoredQueryKey(bucket: Str, objectKey: Str, query: Arr<QueryValue>,
                                           i: nat, k: Str, v: QueryValue)
    requires i <= |query| && k !in SubResources()
    ensures CanonicalResource(bucket, objectKey, query[..i] + [(k, v)] + query[i..])
         == CanonicalResource(bucket, objectKey, query)
  {
    SubResourcesSkip(query[..i], (k, v), query[i..]);
    assert query[..i] + query[i..] == query;
  }

  lemma {:induction false} SubResourcesSkip(a: Arr<QueryValue>, e: (Str, QueryValue), b: Arr<QueryValue>)
    requires e.0 !in SubResources()
    ensures SubResourcesOf(a + [e] + b) == SubResourcesOf(a + b)
    decreases |b|
  {
    if b == [] {
      SubResourcesAppend(a, e);
      assert a + [e] + b == a + [e] && a + b == a;
    } else {
      var n := |b| - 1;
      SubResourcesSkip(a, e, b[..n]);
      assert a + [e] + b == (a + [e] + b[..n]) + [b[n]];
      assert a + b == (a + b[..n]) + [b[n]];
      SubResourcesAppend(a + [e] + b[..n], b[n]);
      SubResourcesAppend(a + b[..n], b[n]);
    }
  }

  /** One more query entry is one more pass of extractSubResources' loop. */
  lemma SubResourcesAppend(query: Arr<QueryValue>, e: (Str, QueryValue))
    ensures SubResourcesOf(query + [e])
         == if e.0 in SubResources() then Put(SubResourcesOf(query), e.0, e.1) else SubResourcesOf(query)
  {
    assert (query + [e])[..|query|] == query;
  }

  // ================================================================ header scan

  /** The loop's `$key`: the header name trimmed and lower-cased. */
  function NormalizeName(name: Str): Str
  {
    ToLower(Trim(name))
  }

  /** The variables of the header loop in stringToSign. */
  datatype HeaderScan = HeaderScan(contentMd5: Str, contentType: Str, date: Str, canonical: Arr<Str>)

  /** One pass of the header loop. */
  function ScanStep(acc: HeaderScan, header: (Str, Str)): HeaderScan
  {
    var key := NormalizeName(header.0);
    if key == "content-md5" then acc.(contentMd5 := header.1)
    else if key == "content-type" then acc.(contentType := header.1)
    else if key == "date" then acc.(date := header.1)
    else if StartsWith(key, ObsPrefix) then acc.(canonical := Put(acc.canonical, key, Trim(header.1)))
    else acc
  }

  /** The loop variables once every header has been seen, in order. */
  function ScanHeaders(headers: Arr<Str>): HeaderScan
    decreases |headers|
  {
    if headers == [] then HeaderScan([], [], [], [])
    else ScanStep(ScanHeaders(headers[..|headers| - 1]), headers[|headers| - 1])
  }

  /** The value of the last header whose name normalises to name. */
  function LastValue(headers: Arr<Str>, name: Str): Option<Str>
    decreases |headers|
  {
    if headers == [] then None
    else
      var n := |headers| - 1;
      if NormalizeName(headers[n].0) == name then Some(headers[n].1) else LastValue(headers[..n], name)
  }

  /** The last header named name is the final one when it has that name, and otherwise the last such among those before it. */
  lemma LastValueStep(headers: Arr<Str>, name: Str)
    requires headers != []
    ensures LastValue(headers, name) == if NormalizeName(headers[|headers| - 1].0) == name then Some(headers[|headers| - 1].1)
                                        else LastValue(headers[..|headers| - 1], name)
  {
  }

  function TrimmedValue(v: Option<Str>): Option<Str>
  {
    if v.Some? then Some(Trim(v.value)) else None
  }

  /** The sorted canonical header block of stringToSign. */
  function CanonicalHeaders(headers: Arr<Str>): Arr<Str>
  {
    KSort(ScanHeaders(headers).canonical)
  }

  /** One line of the canonical header block. */
  function HeaderLine(entry: (Str, Str)): Str
  {
    Line(entry.0 + ":" + entry.1)
  }

  function HeaderLines(block: Arr<Str>): Str
    decreases |block|
  {
    if block == [] then [] else HeaderLines(block[..|block| - 1]) + HeaderLine(block[|block| - 1])
  }

  /** One line of the string-to-sign. */
  function Line(s: Str): Str
  {
    s + "\n"
  }

  /** The Date line's value: "" once an x-obs-date header has been seen. */
  function EffectiveDate(scan: HeaderScan): Str
  {
    if HasKey(scan.canonical, "x-obs-date") then [] else scan.date
  }

  /** The string the signature is computed over. */
  function StringToSignOf(verb: Str, bucket: Str, objectKey: Str, query: Arr<QueryValue>, headers: Arr<Str>): Str
  {
    var scan := ScanHeaders(headers);
    Line(verb) + Line(scan.contentMd5) + Line(scan.contentType) + Line(EffectiveDate(scan))
      + HeaderLines(KSort(scan.canonical)) + CanonicalResource(bucket, objectKey, query)
  }

  /**
   * The header loop keeps, for content-md5, content-type and date, the value
   * of the last header with that name (or ""), and for each x-obs-* name the
   * trimmed value of the last header with that name; it records nothing else.
   */
  lemma ScanFields(headers: Arr<Str>)
    ensures ScanHeaders(headers).contentMd5 == LastValue(headers, "content-md5").GetOr([])
    ensures ScanHeaders(headers).contentType == LastValue(headers, "content-type").GetOr([])
    ensures ScanHeaders(headers).date == LastValue(headers, "date").GetOr([])
    ensures forall k :: Get(ScanHeaders(headers).canonical, k)
                     == if StartsWith(k, ObsPrefix) then TrimmedValue(LastValue(headers, k)) else None
    ensures UniqueKeys(ScanHeaders(headers).canonical)
  {
    ScanDirectFields(headers);
    ScanCanonical(headers);
  }

  /** The Content-MD5, Content-Type and Date values are those of the last header of each name, or "". */
  lemma {:induction false} ScanDirectFields(headers: Arr<Str>)
    ensures ScanHeaders(headers).contentMd5 == LastValue(headers, "content-md5").GetOr([])
    ensures ScanHeaders(headers).contentType == LastValue(headers, "content-type").GetOr([])
    ensures ScanHeaders(headers).date == LastValue(headers, "date").GetOr([])
    decreases |headers|
  {
    if headers != [] {
      ScanDirectFields(headers[..|headers| - 1]);
    }
  }

  /** The canonical block holds, once each, every x-obs-* name with the trimmed value of its last header. */
  lemma {:induction false} ScanCanonical(headers: Arr<Str>)
    ensures forall k :: Get(ScanHeaders(headers).canonical, k)
                     == if StartsWith(k, ObsPrefix) then TrimmedValue(LastValue(headers, k)) else None
    ensures UniqueKeys(ScanHeaders(headers).canonical)
    decreases |headers|
  {
    if headers != [] {
      var n := |headers| - 1;
      ScanCanonical(headers[..n]);
      var acc := ScanHeaders(headers[..n]);
      var key := NormalizeName(headers[n].0);
      if StartsWith(key, ObsPrefix) {
        var value := Trim(headers[n].1);
        var canonical := ScanHeaders(headers).canonical;
        assert canonical == Put(acc.canonical, key, value) by {
          assert key[0] == 'x';
        }
        PutKeys(acc.canonical, key, value);
        forall k ensures Get(canonical, k) == if StartsWith(k, ObsPrefix) then TrimmedValue(LastValue(headers, k)) else None
        {
          PutGet(acc.canonical, key, value, k);
          LastValueStep(headers, k);
        }
      } else {
        assert ScanHeaders(headers).canonical == acc.canonical;
        forall k | StartsWith(k, ObsPrefix) ensures LastValue(headers, k) == LastValue(headers[..n], k) {
          assert k != key;
        }
      }
    }
  }

  /** The Date line: "" whenever an x-obs-date header is present, else the last Date header or "". */
  lemma {:induction false} EffectiveDateOf(headers: Arr<Str>)
    ensures EffectiveDate(ScanHeaders(headers))
         == if LastValue(headers, "x-obs-date").Some? then [] else LastValue(headers, "date").GetOr([])
  {
    ScanFields(headers);
    assert HasKey(ScanHeaders(headers).canonical, "x-obs-date")
       <==> Get(ScanHeaders(headers).canonical, "x-obs-date").Some?;
  }

  /**
   * The layout of the string-to-sign: verb, Content-MD5, Content-Type and
   * Date lines (each "" when absent), then the canonical header block, then
   * the canonical resource.
   */
  lemma {:induction false} StringToSignLayout(verb: Str, bucket: Str, objectKey: Str,
                                              query: Arr<QueryValue>, headers: Arr<Str>)
    ensures StringToSignOf(verb, bucket, objectKey, query, headers)
         == Line(verb) + Line(LastValue(headers, "content-md5").GetOr([]))
          + Line(LastValue(headers, "content-type").GetOr([]))
          + Line(if LastValue(headers, "x-obs-date").Some? then [] else LastValue(headers, "date").GetOr([]))
          + HeaderLines(CanonicalHeaders(headers)) + CanonicalResource(bucket, objectKey, query)
  {
    ScanFields(headers);
    EffectiveDateOf(headers);
  }

  /**
   * The canonical header block holds every x-obs-* header, x-obs-date
   * included, with the trimmed value of its last occurrence, in strictly
   * increasing byte order of name.
   */
  lemma {:induction false} CanonicalHeadersBlock(headers: Arr<Str>)
    ensures SortedByKey(CanonicalHeaders(headers))
    ensures forall k :: Get(CanonicalHeaders(headers), k)
                     == if StartsWith(k, ObsPrefix) then TrimmedValue(LastValue(headers, k)) else None
  {
    ScanFields(headers);
    var canonical := ScanHeaders(headers).canonical;
    KSortSorted(canonical);
    KSortPermutes(canonical);
    SortedUnique(KSort(canonical));
    forall k ensures Get(CanonicalHeaders(headers), k) == Get(canonical, k) {
      GetOfPermutation(KSort(canonical), canonical, k);
    }
  }

  /** Entries with unique keys, in any order, give the same lookups. */
  lemma GetOfPermutation<V>(a: Arr<V>, b: Arr<V>, k: Str)
    requires multiset(a) == multiset(b) && UniqueKeys(a) && UniqueKeys(b)
    ensures Get(a, k) == Get(b, k)
  {
    KeysOfPermutation(a, b);
    HasKeyIsKeys(a, k);
    HasKeyIsKeys(b, k);
    if Get(a, k).Some? {
      var i :| 0 <= i < |a| && a[i] == (k, Get(a, k).value);
      var j :| 0 <= j < |b| && b[j] == (k, Get(b, k).value);
      assert a[i] in multiset(b);
      var m :| 0 <= m < |b| && b[m] == a[i];
      assert m == j;
    }
  }

  /** Two header lists whose names normalise alike, value for value, sign the same string. */
  lemma {:induction false} NormalizedNamesAgree(h1: Arr<Str>, h2: Arr<Str>)
    requires |h1| == |h2|
    requires forall i :: 0 <= i < |h1| ==> NormalizeName(h1[i].0) == NormalizeName(h2[i].0) && h1[i].1 == h2[i].1
    ensures ScanHeaders(h1) == ScanHeaders(h2)
    decreases |h1|
  {
    if h1 != [] {
      var n := |h1| - 1;
      NormalizedNamesAgree(h1[..n], h2[..n]);
    }
  }

  /** A header that is none of content-md5, content-type, date or x-obs-* changes nothing. */
  lemma {:induction false} IgnoredHeader(a: Arr<Str>, header: (Str, Str), b: Arr<Str>)
    requires NormalizeName(header.0) !in ["content-md5", "content-type", "date"]
    requires !StartsWith(NormalizeName(header.0), ObsPrefix)
    ensures ScanHeaders(a + [header] + b) == ScanHeaders(a + b)
    decreases |b|
  {
    if b == [] {
      assert a + [header] + b == a + [header] && a + b == a;
      LastHeader(a, header);
    } else {
      var n := |b| - 1;
      var rest, last := b[..n], [b[n]];
      IgnoredHeader(a, header, rest);
      assert b == rest + last;
      ConcatAssoc(a + [header], rest, last);
      ConcatAssoc(a, rest, last);
      LastHeader(a + [header] + rest, b[n]);
      LastHeader(a + rest, b[n]);
    }
  }

  /** Such a header leaves the string-to-sign as it was. */
  lemma {:induction false} IgnoredHeaderSigned(verb: Str, bucket: Str, objectKey: Str, query: Arr<QueryValue>,
                                               a: Arr<Str>, header: (Str, Str), b: Arr<Str>)
    requires NormalizeName(header.0) !in ["content-md5", "content-type", "date"]
    requires !StartsWith(NormalizeName(header.0), ObsPrefix)
    ensures StringToSignOf(verb, bucket, objectKey, query, a + [header] + b)
         == StringToSignOf(verb, bucket, objectKey, query, a + b)
  {
    IgnoredHeader(a, header, b);
  }

  /** Appending a header is one more pass of the loop. */
  lemma LastHeader(headers: Arr<Str>, header: (Str, Str))
    ensures ScanHeaders(headers + [header]) == ScanStep(ScanHeaders(headers), header)
  {
    assert (headers + [header])[..|headers|] == headers;
  }

  // ================================================================ the loops of the signer

  /** extractSubResources */
  method ExtractSubResources(query: Arr<QueryValue>) returns (subs: Arr<QueryValue>)
    ensures subs == SubResourcesOf(query)
  {
    subs := [];
    for i := 0 to |query|
      invariant subs == SubResourcesOf(query[..i])
    {
      assert query[..i + 1][..i] == query[..i];
      if query[i].0 in SubResources() {
        subs := Put(subs, query[i].0, query[i].1);
      }
    }
    assert query[..|query|] == query;
  }

  /** formatSubResourceParts */
  method FormatSubResourceParts(subs: Arr<QueryValue>) returns (parts: seq<Str>)
    ensures parts == PartsOf(subs)
  {
    parts := [];
    for i := 0 to |subs|
      invariant parts == PartsOf(subs[..i])
    {
      assert subs[..i + 1][..i] == subs[..i];
      if subs[i].1 == QNull || subs[i].1 == QStr([]) {
        parts := parts + [subs[i].0];
      } else {
        parts := parts + [subs[i].0 + "=" + ValueText(subs[i].1)];
      }
    }
    assert subs[..|subs|] == subs;
  }

  /** buildSubResourcesQueryString */
  method BuildSubResourcesQueryString(query: Arr<QueryValue>) returns (suffix: Str)
    ensures suffix == SubResourceQuery(query)
  {
    var subs := ExtractSubResources(query);
    if subs == [] {
      return [];
    }
    subs := KSort(subs);
    var parts := FormatSubResourceParts(subs);
    suffix := "?" + Implode("&", parts);
  }

  /** canonicalizedResource */
  method CanonicalizedResource(bucket: Str, objectKey: Str, query: Arr<QueryValue>) returns (resource: Str)
    ensures resource == CanonicalResource(bucket, objectKey, query)
  {
    resource := BasicResource(bucket, objectKey);
    var queryString := BuildSubResourcesQueryString(query);
    resource := resource + queryString;
  }

  /** The header loop of stringToSign. */
  method ScanHeaderList(headers: Arr<Str>) returns (scan: HeaderScan)
    ensures scan == ScanHeaders(headers)
  {
    var contentMd5: Str := [];
    var contentType: Str := [];
    var date: Str := [];
    var canonical: Arr<Str> := [];
    for i := 0 to |headers|
      invariant HeaderScan(contentMd5, contentType, date, canonical) == ScanHeaders(headers[..i])
    {
      assert headers[..i + 1][..i] == headers[..i];
      var key := ToLower(Trim(headers[i].0));
      var value := headers[i].1;
      if key == "content-md5" {
        contentMd5 := value;
      } else if key == "content-type" {
        contentType := value;
      } else if key == "date" {
        date := value;
      } else if StartsWith(key, ObsPrefix) {
        canonical := Put(canonical, key, Trim(value));
      }
    }
    assert headers[..|headers|] == headers;
    scan := HeaderScan(contentMd5, contentType, date, canonical);
  }

  /** The loop of stringToSign that writes the sorted block, one "key:value" line per entry. */
  method AppendHeaderLines(text: Str, block: Arr<Str>) returns (r: Str)
    ensures r == text + HeaderLines(block)
  {
    r := text;
    for i := 0 to |block|
      invariant r == text + HeaderLines(block[..i])
    {
      assert block[..i + 1][..i] == block[..i];
      r := r + block[i].0 + ":" + block[i].1 + "\n";
    }
    assert block[..|block|] == block;
  }

  /** stringToSign */
  method StringToSign(verb: Str, bucket: Str, objectKey: Str, query: Arr<QueryValue>, headers: Arr<Str>)
    returns (sts: Str)
    ensures sts == StringToSignOf(verb, bucket, objectKey, query, headers)
  {
    var scan := ScanHeaderList(headers);
    var date := scan.date;
    if HasKey(scan.canonical, "x-obs-date") {
      date := [];
    }
    sts := Line(verb) + Line(scan.contentMd5) + Line(scan.contentType) + Line(date);
    var block := KSort(scan.canonical);
    sts := AppendHeaderLines(sts, block);
    var resource := CanonicalizedResource(bucket, objectKey, query);
    sts := sts + resource;
  }

  // ================================================================ the signer

  const AuthorizationHeader: Str := "Authorization"

  /** The Authorization header's value: "OBS", the access key, and the signature after a colon. */
  function AuthorizationValue(accessKey: Str, signature: Str): Str
  {
    "OBS " + accessKey + ":" + signature
  }

  /** The credentials a signer holds. */
  datatype ObsSignature = ObsSignature(accessKey: Str, secretKey: Str)
  {
    /**
     * signRequest: the Authorization header "OBS ak:signature", the signature
     * being mac(secretKey, string-to-sign); the body plays no part.
     */
    method SignRequest(mac: (Str, Str) -> Str, verb: Str, bucket: Str, objectKey: Str,
                       query: Arr<QueryValue>, headers: Arr<Str>, body: Str)
      returns (auth: Arr<Str>)
      ensures auth == [(AuthorizationHeader, AuthorizationValue(accessKey, mac(secretKey, StringToSignOf(verb, bucket, objectKey, query, headers))))]
    {
      var stringToSign := StringToSign(verb, bucket, objectKey, query, headers);
      var signature := mac(secretKey, stringToSign);
      var value := AuthorizationValue(accessKey, signature);
      var entry: (Str, Str) := (AuthorizationHeader, value);
      auth := [entry];
    }
  }
}

/** Worked instances of the signer's rules. */
module SignatureExamples {
  import opened SubResourceVocabulary
  import opened Php
  import opened PhpArray
  import opened Signature

  /** The filter keeps the one vocabulary entry of `['acl' => '']`. */
  lemma AclSelected(query: Arr<QueryValue>)
    requires query == [("acl", QStr([]))]
    ensures SubResourcesOf(query) == query
  {
    assert "acl" in SubResources();
    assert query[..0] == [];
  }

  /** A sub-resource with an empty value is written as the bare key: `?acl`. */
  lemma AclSubResource()
    ensures SubResourceQuery([("acl", QStr(""))]) == "?acl"
  {
    var query: Arr<QueryValue> := [("acl", QStr([]))];
    AclSelected(query);
    assert KSort(query) == query by { assert query[1..] == []; }
    assert PartsOf(query) == ["acl"] by { assert query[..0] == []; }
    var acl: Str := "acl";
    assert Implode("&", [acl]) == acl;
  }
}
