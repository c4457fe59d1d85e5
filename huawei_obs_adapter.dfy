/**
 * The Flysystem adapter for OBS: a tree of files and virtual directories
 * laid over the flat key space of one bucket. Every path is turned into a
 * key by the adapter's prefixer; a directory is only a common key prefix,
 * or an empty object whose key ends in '/'.
 */
module Adapter {
  import opened Wrappers
  import opened Php
  import opened PhpArray
  import Signature
  import RequestBodies
  import opened PathPrefix
  import opened ClientInterface

  // ---------------------------------------------------------------- values

  const BucketRequired: Str := "Bucket name cannot be empty"
  /** In pieces: each literal is shown to be bytes on its own, which a literal this long is not in one step. */
  const VisibilityUnsupported: Str := "Huawei OBS does not " + "support visibility " + "changes through ACL."
  const ListFailure: Str := "Unable to list contents: "
  /** Flysystem's `Visibility::PRIVATE`. */
  const Private: Str := "private"
  /** The option key the adapter gives a configured content type. */
  const ContentTypeOption: Str := "ContentType"
  /** The header prefix of each metadata entry. */
  const MetaPrefix: Str := "x-obs-meta-"

  /** What a listing yields, and what the metadata calls return. */
  datatype StorageAttributes =
    | FileAttributes(path: Str, fileSize: Option<int>, visibility: Option<Str>, lastModified: Option<int>, mimeType: Option<Str>)
    | DirectoryAttributes(path: Str)

  /** The exceptions the adapter throws; each carries the caller's path, not the key. */
  datatype FilesystemError =
    | UnableToWriteFile(location: Str, reason: Str)
    | UnableToDeleteFile(location: Str, reason: Str)
    | UnableToDeleteDirectory(location: Str, reason: Str)
    | UnableToCreateDirectory(location: Str, reason: Str)
    | UnableToCopyFile(source: Str, destination: Str, reason: Str)
    | UnableToMoveFile(source: Str, destination: Str, cause: FilesystemError)
    | UnableToSetVisibility(location: Str, reason: Str)
    | ListingFailed(message: Str)

  /** The two settings of a Flysystem `Config` the adapter reads: `ContentType` and `metadata`, when set (and an array). */
  datatype Config = Config(contentType: Option<Str>, metadata: Option<Arr<Str>>)

  // ---------------------------------------------------------------- options

  /** The headers of each metadata entry, added in order with `$options['x-obs-meta-' . $key] = $value`. */
  function MetaOptions(options: Arr<Str>, metadata: Arr<Str>): Arr<Str>
    decreases |metadata|
  {
    if metadata == [] then options
    else MetaOptions(Put(options, MetaPrefix + metadata[0].0, metadata[0].1), metadata[1..])
  }

  /** The options a config gives a write or a copy. */
  function ConfigOptions(config: Config): Arr<Str>
  {
    var options := if config.contentType.Some? then Put([], ContentTypeOption, config.contentType.value) else [];
    if config.metadata.Some? then MetaOptions(options, config.metadata.value) else options
  }

  /** Fills the options from the config: the content type, then one header per metadata entry. */
  method ExtractOptionsFromConfig(config: Config) returns (options: Arr<Str>)
    ensures options == ConfigOptions(config)
  {
    options := [];
    if config.contentType.Some? {
      options := Put(options, ContentTypeOption, config.contentType.value);
    }
    if config.metadata.Some? {
      var metadata := config.metadata.value;
      ghost var target := MetaOptions(options, metadata);
      for i := 0 to |metadata|
        invariant MetaOptions(options, metadata[i..]) == target
      {
        assert metadata[i..][1..] == metadata[i + 1..];
        options := Put(options, MetaPrefix + metadata[i].0, metadata[i].1);
      }
    }
  }

  /** A metadata header names the entry it came from; every other key keeps its value. */
  lemma {:induction false} MetaOptionsGet(options: Arr<Str>, metadata: Arr<Str>, k: Str)
    requires UniqueKeys(metadata)
    ensures Get(MetaOptions(options, metadata), k) ==
      if MetaPrefix <= k && HasKey(metadata, k[|MetaPrefix|..]) then Get(metadata, k[|MetaPrefix|..])
      else Get(options, k)
    decreases |metadata|
  {
    if metadata != [] {
      var t := metadata[1..];
      var key := MetaPrefix + metadata[0].0;
      assert UniqueKeys(t) by {
        forall i, j | 0 <= i < j < |t| ensures t[i].0 != t[j].0 {
          assert t[i] == metadata[i + 1] && t[j] == metadata[j + 1];
        }
      }
      MetaOptionsGet(Put(options, key, metadata[0].1), t, k);
      PutGet(options, key, metadata[0].1, k);
      KeysCons(metadata);
      assert key[|MetaPrefix|..] == metadata[0].0;
      if MetaPrefix <= k {
        var name := k[|MetaPrefix|..];
        assert k == MetaPrefix + name;
        HasKeyIsKeys(metadata, name);
        HasKeyIsKeys(t, name);
      }
    }
  }

  /**
   * The options hold `ContentType` exactly when the config sets it, one
   * `x-obs-meta-<k>` per metadata entry, and nothing else.
   */
  lemma ConfigOptionsGet(config: Config, k: Str)
    requires config.metadata.Some? ==> UniqueKeys(config.metadata.value)
    ensures Get(ConfigOptions(config), k) ==
      if k == ContentTypeOption then config.contentType
      else if config.metadata.Some? && MetaPrefix <= k && HasKey(config.metadata.value, k[|MetaPrefix|..])
      then Get(config.metadata.value, k[|MetaPrefix|..])
      else None
  {
    var options: Arr<Str> := if config.contentType.Some? then Put([], ContentTypeOption, config.contentType.value) else [];
    if config.contentType.Some? {
      PutGet([], ContentTypeOption, config.contentType.value, k);
    }
    if config.metadata.Some? {
      MetaOptionsGet(options, config.metadata.value, k);
      if k == ContentTypeOption {
        assert !(MetaPrefix <= k) by { assert k[0] != MetaPrefix[0]; }
      }
    }
  }

  /** A config without content type or metadata gives no options. */
  lemma EmptyConfigOptions()
    ensures ConfigOptions(Config(None, None)) == []
    ensures ConfigOptions(Config(None, Some([]))) == []
  {
  }

  /**
   * No config puts a `Content-Type` header among the options: the content
   * type goes under the key `ContentType`, which the client does not read,
   * so the client's own default content type applies to every write.
   */
  lemma ConfigNeverSetsContentTypeHeader(config: Config)
    requires config.metadata.Some? ==> UniqueKeys(config.metadata.value)
    ensures Get(ConfigOptions(config), "Content-Type") == None
  {
    var header: Str := "Content-Type";
    ConfigOptionsGet(config, header);
    assert header != ContentTypeOption by { assert header[7] != ContentTypeOption[7]; }
    assert !(MetaPrefix <= header) by { assert header[0] != MetaPrefix[0]; }
  }

  // ---------------------------------------------------------------- listing

  /** How a marker goes into the query: its text, or null before the first page. */
  function MarkerValue(marker: Option<Str>): Signature.QueryValue
  {
    if marker.Some? then Signature.QStr(marker.value) else Signature.QNull
  }

  /** `['prefix' => $location, 'marker' => $marker]` */
  function ListQuery(location: Str, marker: Option<Str>): Arr<Signature.QueryValue>
  {
    [("prefix", Signature.QStr(location)), ("marker", MarkerValue(marker))]
  }

  /** The query of one listing call: prefix and marker, and the '/' delimiter unless the listing is deep. */
  function BuildListObjectsOptions(location: Str, marker: Option<Str>, deep: bool): Arr<Signature.QueryValue>
  {
    var options := ListQuery(location, marker);
    if deep then options else Put(options, "delimiter", Signature.QStr("/"))
  }

  /**
   * The listing query always carries the location and the marker (null for
   * the first page), and the delimiter '/' exactly when it is not deep.
   */
  lemma BuildListObjectsOptionsGet(location: Str, marker: Option<Str>, deep: bool, k: Str)
    ensures Get(BuildListObjectsOptions(location, marker, deep), k) ==
      if k == "prefix" then Some(Signature.QStr(location))
      else if k == "marker" then Some(MarkerValue(marker))
      else if k == "delimiter" && !deep then Some(Signature.QStr("/"))
      else None
  {
    var q := ListQuery(location, marker);
    var prefix: Str := "prefix";
    var mark: Str := "marker";
    var delimiter: Str := "delimiter";
    assert prefix != mark by { assert prefix[0] != mark[0]; }
    assert delimiter != prefix && delimiter != mark by { assert delimiter[0] != prefix[0] && delimiter[0] != mark[0]; }
    if !deep {
      PutGet(q, delimiter, Signature.QStr("/"), k);
    }
  }

  /** The file entry an object is listed as: its stripped key, its size and its time. */
  function FileOf(p: PathPrefixer, o: ObjectEntry): StorageAttributes
  {
    FileAttributes(p.StripPrefix(o.key), o.size, None, o.lastModified, None)
  }

  /** The files of one page, in order: every object whose key does not end in '/', its key stripped of the prefix. */
  function ProcessObjectContents(p: PathPrefixer, objects: seq<ObjectEntry>): (r: seq<StorageAttributes>)
    ensures |r| <= |objects|
    ensures forall i :: 0 <= i < |r| ==> r[i].FileAttributes? && r[i].visibility.None? && r[i].mimeType.None?
    decreases |objects|
  {
    if objects == [] then []
    else
      var o := objects[0];
      var rest := ProcessObjectContents(p, objects[1..]);
      if EndsWith(o.key, "/") then rest
      else [FileOf(p, o)] + rest
  }

  /** The directories of one page: none when the listing is deep, else each common prefix, stripped and right-trimmed of '/'. */
  function ProcessDirectoryPrefixes(p: PathPrefixer, prefixes: seq<Str>, deep: bool): (r: seq<StorageAttributes>)
    ensures deep ==> r == []
    ensures !deep ==> |r| == |prefixes|
    ensures forall i :: 0 <= i < |r| ==> r[i].DirectoryAttributes?
  {
    if deep || prefixes == [] then [] else Directories(p, prefixes)
  }

  function Directories(p: PathPrefixer, prefixes: seq<Str>): (r: seq<StorageAttributes>)
    ensures |r| == |prefixes|
    ensures forall i :: 0 <= i < |r| ==> r[i] == DirectoryAttributes(TrimRight(p.StripPrefix(prefixes[i]), "/"))
    decreases |prefixes|
  {
    if prefixes == [] then []
    else [DirectoryAttributes(TrimRight(p.StripPrefix(prefixes[0]), "/"))] + Directories(p, prefixes[1..])
  }

  /** What one page of a listing yields: its files, then its directories. */
  function PageEntries(p: PathPrefixer, page: Page, deep: bool): seq<StorageAttributes>
  {
    ProcessObjectContents(p, page.contents) + ProcessDirectoryPrefixes(p, page.commonPrefixes, deep)
  }

  /** A stripped file key does not end in '/': a directory marker is never listed as a file. */
  lemma FilePathHasNoTrailingSlash(p: PathPrefixer, key: Str)
    requires !EndsWith(key, "/")
    ensures !EndsWith(p.StripPrefix(key), "/")
  {
    var s := p.StripPrefix(key);
    if |p.prefix| < |key| {
      assert s[|s| - 1] == key[|key| - 1];
      assert EndsWith(key, "/") <==> key[|key| - 1] == '/';
    }
  }

  /** Every object whose key does not end in '/' is listed, as a file at its stripped key. */
  lemma {:induction false} ProcessObjectContentsLists(p: PathPrefixer, objects: seq<ObjectEntry>, j: nat)
    requires j < |objects| && !EndsWith(objects[j].key, "/")
    ensures FileOf(p, objects[j]) in ProcessObjectContents(p, objects)
    decreases |objects|
  {
    if j > 0 {
      ProcessObjectContentsLists(p, objects[1..], j - 1);
    }
  }

  /** No file a page yields has a path that ends in '/'. */
  lemma {:induction false} ProcessObjectContentsNoSlash(p: PathPrefixer, objects: seq<ObjectEntry>)
    ensures forall i :: 0 <= i < |ProcessObjectContents(p, objects)| ==> !EndsWith(ProcessObjectContents(p, objects)[i].path, "/")
    decreases |objects|
  {
    if objects != [] {
      ProcessObjectContentsNoSlash(p, objects[1..]);
      if !EndsWith(objects[0].key, "/") {
        FilePathHasNoTrailingSlash(p, objects[0].key);
        var r := ProcessObjectContents(p, objects);
        assert forall i :: 1 <= i < |r| ==> r[i] == ProcessObjectContents(p, objects[1..])[i - 1];
      }
    }
  }

  /** Every yielded file comes from an object whose key does not end in '/'. */
  lemma {:induction false} ProcessObjectContentsFrom(p: PathPrefixer, objects: seq<ObjectEntry>)
    ensures forall i :: 0 <= i < |ProcessObjectContents(p, objects)| ==>
      exists j :: 0 <= j < |objects| && !EndsWith(objects[j].key, "/") && ProcessObjectContents(p, objects)[i] == FileOf(p, objects[j])
    decreases |objects|
  {
    if objects != [] {
      var tail := objects[1..];
      ProcessObjectContentsFrom(p, tail);
      var r := ProcessObjectContents(p, objects);
      var rest := ProcessObjectContents(p, tail);
      var skip := if EndsWith(objects[0].key, "/") then 0 else 1;
      assert |r| == |rest| + skip;
      forall i | 0 <= i < |ProcessObjectContents(p, objects)|
        ensures exists j :: 0 <= j < |objects| && !EndsWith(objects[j].key, "/") && ProcessObjectContents(p, objects)[i] == FileOf(p, objects[j])
      {
        if skip == 1 && i == 0 {
          assert r[0] == FileOf(p, objects[0]);
        } else {
          var k := i - skip;
          assert 0 <= k < |rest| && r[i] == rest[k];
          assert exists j :: 0 <= j < |tail| && !EndsWith(tail[j].key, "/") && rest[k] == FileOf(p, tail[j]);
          var j :| 0 <= j < |tail| && !EndsWith(tail[j].key, "/") && rest[k] == FileOf(p, tail[j]);
          assert objects[j + 1] == tail[j];
        }
      }
    } else {
      assert ProcessObjectContents(p, objects) == [];
    }
  }

  /** The files of two runs of objects are the files of the first, then those of the second. */
  lemma {:induction false} ProcessObjectContentsAppend(p: PathPrefixer, a: seq<ObjectEntry>, b: seq<ObjectEntry>)
    ensures ProcessObjectContents(p, a + b) == ProcessObjectContents(p, a) + ProcessObjectContents(p, b)
    decreases |a|
  {
    if a == [] {
      assert a + b == b;
    } else {
      assert (a + b)[0] == a[0] && (a + b)[1..] == a[1..] + b;
      ProcessObjectContentsAppend(p, a[1..], b);
      if !EndsWith(a[0].key, "/") {
        ConcatAssoc([FileOf(p, a[0])], ProcessObjectContents(p, a[1..]), ProcessObjectContents(p, b));
      }
    }
  }

  /** A directory marker, wherever it stands among the objects, yields nothing: the root marker included. */
  lemma MarkerSkipped(p: PathPrefixer, a: seq<ObjectEntry>, marker: ObjectEntry, b: seq<ObjectEntry>)
    requires EndsWith(marker.key, "/")
    ensures ProcessObjectContents(p, a + [marker] + b) == ProcessObjectContents(p, a + b)
  {
    ProcessObjectContentsAppend(p, a + [marker], b);
    ProcessObjectContentsAppend(p, a, [marker]);
    ProcessObjectContentsAppend(p, a, b);
    assert ProcessObjectContents(p, [marker]) == [] by {
      assert [marker][1..] == [];
    }
  }

  /** No directory a page yields has a path that ends in '/'. */
  lemma ProcessDirectoryPrefixesNoSlash(p: PathPrefixer, prefixes: seq<Str>, deep: bool)
    ensures forall i :: 0 <= i < |ProcessDirectoryPrefixes(p, prefixes, deep)| ==>
      !EndsWith(ProcessDirectoryPrefixes(p, prefixes, deep)[i].path, "/")
  {
    var r := ProcessDirectoryPrefixes(p, prefixes, deep);
    forall i | 0 <= i < |r| ensures !EndsWith(r[i].path, "/") {
      var s := p.StripPrefix(prefixes[i]);
      TrimRightSpec(s, "/");
      var t := TrimRight(s, "/");
      assert r[i].path == t;
      if t != [] {
        assert t[|t| - 1] != '/';
      }
    }
  }

  /** What a marker-driven listing did: its calls, the pages it got, the message that ended it, if any, and the unused script. */
  datatype Paging = Paging(calls: seq<Call>, pages: seq<Page>, failure: Option<Str>, rest: seq<Reply>)

  /**
   * The do-while of a listing: ask for the page after the marker, and go on
   * with the page's `NextMarker` until a page has none or a call throws.
   */
  function Pages(bucket: Str, location: Str, deep: bool, marker: Option<Str>, script: seq<Reply>): Paging
    decreases |script|
  {
    var call := ListObjects(bucket, BuildListObjectsOptions(location, marker, deep));
    match NextReply(script)
    case Thrown(message) => Paging([call], [], Some(message), RestOf(script))
    case Returned(page) =>
      if page.nextMarker.None? then Paging([call], [page], None, RestOf(script))
      else
        assert script != [];
        var w := Pages(bucket, location, deep, page.nextMarker, RestOf(script));
        Paging([call] + w.calls, [page] + w.pages, w.failure, w.rest)
  }

  /** A listing whose first call throws ends there. */
  lemma PagesThrown(bucket: Str, location: Str, deep: bool, marker: Option<Str>, script: seq<Reply>)
    requires NextReply(script).Thrown?
    ensures Pages(bucket, location, deep, marker, script) ==
      Paging([ListObjects(bucket, BuildListObjectsOptions(location, marker, deep))], [], Some(NextReply(script).message), RestOf(script))
  {
  }

  /** A listing whose first page has no `NextMarker` ends with that page. */
  lemma PagesLast(bucket: Str, location: Str, deep: bool, marker: Option<Str>, script: seq<Reply>)
    requires NextReply(script).Returned? && NextReply(script).page.nextMarker.None?
    ensures Pages(bucket, location, deep, marker, script) ==
      Paging([ListObjects(bucket, BuildListObjectsOptions(location, marker, deep))], [NextReply(script).page], None, RestOf(script))
  {
  }

  /** A listing whose first page has a `NextMarker` goes on from it. */
  lemma PagesNext(bucket: Str, location: Str, deep: bool, marker: Option<Str>, script: seq<Reply>)
    requires NextReply(script).Returned? && NextReply(script).page.nextMarker.Some?
    ensures var w := Pages(bucket, location, deep, marker, script);
      var v := Pages(bucket, location, deep, NextReply(script).page.nextMarker, RestOf(script));
      && w.calls == [ListObjects(bucket, BuildListObjectsOptions(location, marker, deep))] + v.calls
      && w.pages == [NextReply(script).page] + v.pages
      && w.failure == v.failure && w.rest == v.rest
  {
  }

  /** The marker the i-th call of a listing sends: the first marker, then the `NextMarker` of the page before. */
  function MarkerBefore(marker: Option<Str>, pages: seq<Page>, i: nat): Option<Str>
    requires i <= |pages|
  {
    if i == 0 then marker else pages[i - 1].nextMarker
  }

  /** After a first page, the markers are those of the pages that follow it, from the first page's `NextMarker`. */
  lemma MarkerShift(marker: Option<Str>, page: Page, pages: seq<Page>, i: nat)
    requires 1 <= i <= |pages| + 1
    ensures MarkerBefore(marker, [page] + pages, i) == MarkerBefore(page.nextMarker, pages, i - 1)
  {
    if i >= 2 {
      assert ([page] + pages)[i - 1] == pages[i - 2];
    }
  }

  /** A listing makes one `listObjects` call per page, plus the one that threw. */
  lemma {:induction false} PagesCallCount(bucket: Str, location: Str, deep: bool, marker: Option<Str>, script: seq<Reply>)
    ensures var w := Pages(bucket, location, deep, marker, script);
      |w.calls| == |w.pages| + (if w.failure.Some? then 1 else 0)
    decreases |script|
  {
    var reply := NextReply(script);
    if reply.Thrown? {
      PagesThrown(bucket, location, deep, marker, script);
    } else if reply.page.nextMarker.None? {
      PagesLast(bucket, location, deep, marker, script);
    } else {
      PagesNext(bucket, location, deep, marker, script);
      PagesCallCount(bucket, location, deep, reply.page.nextMarker, RestOf(script));
    }
  }

  /** Each call of a listing carries the location and the marker the page before it gave (null for the first). */
  lemma {:induction false} PagesCalls(bucket: Str, location: Str, deep: bool, marker: Option<Str>, script: seq<Reply>)
    ensures var w := Pages(bucket, location, deep, marker, script);
      forall i :: 0 <= i < |w.calls| && i <= |w.pages| ==>
        w.calls[i] == ListObjects(bucket, BuildListObjectsOptions(location, MarkerBefore(marker, w.pages, i), deep))
    decreases |script|
  {
    var w := Pages(bucket, location, deep, marker, script);
    var reply := NextReply(script);
    if reply.Thrown? {
      PagesThrown(bucket, location, deep, marker, script);
    } else if reply.page.nextMarker.None? {
      PagesLast(bucket, location, deep, marker, script);
    } else {
      var next := reply.page.nextMarker;
      var v := Pages(bucket, location, deep, next, RestOf(script));
      PagesNext(bucket, location, deep, marker, script);
      PagesCalls(bucket, location, deep, next, RestOf(script));
      var first := ListObjects(bucket, BuildListObjectsOptions(location, marker, deep));
      forall i | 1 <= i < |w.calls| && i <= |w.pages|
        ensures w.calls[i] == ListObjects(bucket, BuildListObjectsOptions(location, MarkerBefore(marker, w.pages, i), deep))
      {
        MarkerShift(marker, reply.page, v.pages, i);
        ConsAt(first, v.calls, i);
      }
    }
  }

  /**
   * A listing goes on exactly while pages carry a `NextMarker`: every page
   * but the last has one, and a listing that did not fail ends at a page
   * without one.
   */
  lemma PagesStop(bucket: Str, location: Str, deep: bool, marker: Option<Str>, script: seq<Reply>)
    ensures var w := Pages(bucket, location, deep, marker, script);
      && (forall i :: 0 <= i < |w.pages| - 1 ==> w.pages[i].nextMarker.Some?)
      && (w.failure.None? ==> w.pages != [] && w.pages[|w.pages| - 1].nextMarker.None?)
      && (w.failure.Some? ==> forall i :: 0 <= i < |w.pages| ==> w.pages[i].nextMarker.Some?)
  {
    PagesMarked(bucket, location, deep, marker, script);
    PagesEnd(bucket, location, deep, marker, script);
  }

  /** Every page before the last carries a `NextMarker`, and so does the last when a call threw after it. */
  lemma {:induction false} PagesMarked(bucket: Str, location: Str, deep: bool, marker: Option<Str>, script: seq<Reply>)
    ensures var w := Pages(bucket, location, deep, marker, script);
      && (forall i :: 0 <= i < |w.pages| - 1 ==> w.pages[i].nextMarker.Some?)
      && (w.failure.Some? ==> forall i :: 0 <= i < |w.pages| ==> w.pages[i].nextMarker.Some?)
    decreases |script|
  {
    var reply := NextReply(script);
    if reply.Thrown? {
      PagesThrown(bucket, location, deep, marker, script);
    } else if reply.page.nextMarker.None? {
      PagesLast(bucket, location, deep, marker, script);
    } else {
      var next := reply.page.nextMarker;
      PagesNext(bucket, location, deep, marker, script);
      PagesMarked(bucket, location, deep, next, RestOf(script));
      var w := Pages(bucket, location, deep, marker, script);
      var v := Pages(bucket, location, deep, next, RestOf(script));
      forall i | 1 <= i < |w.pages| ensures w.pages[i] == v.pages[i - 1] {
        ConsAt(reply.page, v.pages, i);
      }
    }
  }

  /** A paging that did not fail ends at a page without a `NextMarker`. */
  lemma {:induction false} PagesEnd(bucket: Str, location: Str, deep: bool, marker: Option<Str>, script: seq<Reply>)
    ensures var w := Pages(bucket, location, deep, marker, script);
      w.failure.None? ==> w.pages != [] && w.pages[|w.pages| - 1].nextMarker.None?
    decreases |script|
  {
    var reply := NextReply(script);
    if reply.Thrown? {
      PagesThrown(bucket, location, deep, marker, script);
    } else if reply.page.nextMarker.None? {
      PagesLast(bucket, location, deep, marker, script);
    } else {
      var next := reply.page.nextMarker;
      PagesNext(bucket, location, deep, marker, script);
      PagesEnd(bucket, location, deep, next, RestOf(script));
    }
  }

  /** A listing's output: what each page yields, page after page. */
  function Listing(p: PathPrefixer, pages: seq<Page>, deep: bool): seq<StorageAttributes>
    decreases |pages|
  {
    if pages == [] then [] else PageEntries(p, pages[0], deep) + Listing(p, pages[1..], deep)
  }

  /** A deep listing yields only files. */
  lemma {:induction false} DeepListingHasOnlyFiles(p: PathPrefixer, pages: seq<Page>)
    ensures forall i :: 0 <= i < |Listing(p, pages, true)| ==> Listing(p, pages, true)[i].FileAttributes?
    decreases |pages|
  {
    if pages != [] {
      DeepListingHasOnlyFiles(p, pages[1..]);
      var head := PageEntries(p, pages[0], true);
      var r := Listing(p, pages, true);
      assert forall i :: |head| <= i < |r| ==> r[i] == Listing(p, pages[1..], true)[i - |head|];
    }
  }

  /** No entry's path ends in '/'. */
  predicate NoTrailingSlash(entries: seq<StorageAttributes>)
  {
    forall i :: 0 <= i < |entries| ==> !EndsWith(entries[i].path, "/")
  }

  lemma NoTrailingSlashConcat(a: seq<StorageAttributes>, b: seq<StorageAttributes>)
    requires NoTrailingSlash(a) && NoTrailingSlash(b)
    ensures NoTrailingSlash(a + b)
  {
    forall i | |a| <= i < |a + b| ensures !EndsWith((a + b)[i].path, "/") {
      assert (a + b)[i] == b[i - |a|];
    }
  }

  /** The listing of a page followed by more pages. */
  lemma ListingCons(p: PathPrefixer, page: Page, pages: seq<Page>, deep: bool)
    ensures Listing(p, [page] + pages, deep) == PageEntries(p, page, deep) + Listing(p, pages, deep)
  {
    assert ([page] + pages)[1..] == pages;
  }

  /** No path a listing yields ends in '/'. */
  lemma {:induction false} ListingHasNoTrailingSlash(p: PathPrefixer, pages: seq<Page>, deep: bool)
    ensures NoTrailingSlash(Listing(p, pages, deep))
    decreases |pages|
  {
    if pages != [] {
      ListingHasNoTrailingSlash(p, pages[1..], deep);
      ProcessObjectContentsNoSlash(p, pages[0].contents);
      ProcessDirectoryPrefixesNoSlash(p, pages[0].commonPrefixes, deep);
      NoTrailingSlashConcat(ProcessObjectContents(p, pages[0].contents), ProcessDirectoryPrefixes(p, pages[0].commonPrefixes, deep));
      NoTrailingSlashConcat(PageEntries(p, pages[0], deep), Listing(p, pages[1..], deep));
    }
  }

  // ---------------------------------------------------------------- deleting a directory

  /** `['Key' => $object['Key']]` for each object of a page, in order. */
  function PageIds(objects: seq<ObjectEntry>): (r: seq<RequestBodies.ObjectId>)
    ensures |r| == |objects|
    ensures forall i :: 0 <= i < |r| ==> r[i] == RequestBodies.ObjectId(objects[i].key, None)
    decreases |objects|
  {
    if objects == [] then []
    else
      var n := |objects| - 1;
      PageIds(objects[..n]) + [RequestBodies.ObjectId(objects[n].key, None)]
  }

  /** The entries a recursive delete gathers: every object of every page, page after page. */
  function CollectedIds(pages: seq<Page>): seq<RequestBodies.ObjectId>
    decreases |pages|
  {
    if pages == [] then [] else PageIds(pages[0].contents) + CollectedIds(pages[1..])
  }

  /** The gathered entries of a page followed by more pages. */
  lemma CollectedIdsCons(page: Page, pages: seq<Page>)
    ensures CollectedIds([page] + pages) == PageIds(page.contents) + CollectedIds(pages)
  {
    assert ([page] + pages)[1..] == pages;
  }

  /**
   * One pass of a listing's loop, seen from the whole paging: the page after
   * the marker has a `NextMarker`, so what is left is the paging from it.
   */
  lemma PagingAdvance(bucket: Str, location: Str, deep: bool, marker: Option<Str>, script: seq<Reply>, page: Page,
                      trace0: seq<Call>, trace: seq<Call>, whole: Paging)
    requires NextReply(script) == Returned(page) && page.nextMarker.Some?
    requires var w := Pages(bucket, location, deep, marker, script);
      trace0 + whole.calls == trace + w.calls && whole.failure == w.failure && whole.rest == w.rest
    ensures script != []
    ensures var v := Pages(bucket, location, deep, page.nextMarker, RestOf(script));
      && Pages(bucket, location, deep, marker, script).pages == [page] + v.pages
      && trace0 + whole.calls == trace + [ListObjects(bucket, BuildListObjectsOptions(location, marker, deep))] + v.calls
      && whole.failure == v.failure && whole.rest == v.rest
  {
    PagesNext(bucket, location, deep, marker, script);
    var v := Pages(bucket, location, deep, page.nextMarker, RestOf(script));
    ConcatAssoc(trace, [ListObjects(bucket, BuildListObjectsOptions(location, marker, deep))], v.calls);
  }

  /** The last pass of a listing's loop: the page after the marker has no `NextMarker`. */
  lemma PagingEnds(bucket: Str, location: Str, deep: bool, marker: Option<Str>, script: seq<Reply>, page: Page,
                   trace0: seq<Call>, trace: seq<Call>, whole: Paging)
    requires NextReply(script) == Returned(page) && page.nextMarker.None?
    requires var w := Pages(bucket, location, deep, marker, script);
      trace0 + whole.calls == trace + w.calls && whole.failure == w.failure && whole.rest == w.rest
    ensures Pages(bucket, location, deep, marker, script).pages == [page]
    ensures trace0 + whole.calls == trace + [ListObjects(bucket, BuildListObjectsOptions(location, marker, deep))]
    ensures whole.failure.None? && whole.rest == RestOf(script)
  {
    PagesLast(bucket, location, deep, marker, script);
  }

  /** A pass of a listing's loop whose call throws: the paging ends with that message. */
  lemma PagingFails(bucket: Str, location: Str, deep: bool, marker: Option<Str>, script: seq<Reply>, message: Str,
                    trace0: seq<Call>, trace: seq<Call>, whole: Paging)
    requires NextReply(script) == Thrown(message)
    requires var w := Pages(bucket, location, deep, marker, script);
      trace0 + whole.calls == trace + w.calls && whole.failure == w.failure && whole.rest == w.rest
    ensures Pages(bucket, location, deep, marker, script).pages == []
    ensures trace0 + whole.calls == trace + [ListObjects(bucket, BuildListObjectsOptions(location, marker, deep))]
    ensures whole.failure == Some(message) && whole.rest == RestOf(script)
  {
    PagesThrown(bucket, location, deep, marker, script);
  }

  /** The listing of pages that go on after a first page: that page's entries, then theirs. */
  lemma ListingAdvance(p: PathPrefixer, deep: bool, page: Page, pages: seq<Page>, rest: seq<Page>,
                       all: seq<StorageAttributes>, entries: seq<StorageAttributes>)
    requires pages == [page] + rest && all == entries + Listing(p, pages, deep)
    ensures all == entries + PageEntries(p, page, deep) + Listing(p, rest, deep)
  {
    ListingCons(p, page, rest, deep);
    ConcatAssoc(entries, PageEntries(p, page, deep), Listing(p, rest, deep));
  }

  /** The keys gathered from pages that go on after a first page: that page's keys, then theirs. */
  lemma CollectedIdsAdvance(page: Page, pages: seq<Page>, rest: seq<Page>,
                            all: seq<RequestBodies.ObjectId>, ids: seq<RequestBodies.ObjectId>)
    requires pages == [page] + rest && all == ids + CollectedIds(pages)
    ensures all == ids + PageIds(page.contents) + CollectedIds(rest)
  {
    CollectedIdsCons(page, rest);
    ConcatAssoc(ids, PageIds(page.contents), CollectedIds(rest));
  }

  /** The foreach of one page: appends `['Key' => $object['Key']]` for each object, in order. */
  method AppendIds(objects: seq<RequestBodies.ObjectId>, contents: seq<ObjectEntry>) returns (r: seq<RequestBodies.ObjectId>)
    ensures r == objects + PageIds(contents)
  {
    r := objects;
    for j := 0 to |contents|
      invariant r == objects + PageIds(contents[..j])
    {
      assert contents[..j + 1][..j] == contents[..j];
      r := r + [RequestBodies.ObjectId(contents[j].key, None)];
    }
    assert contents[..|contents|] == contents;
  }

  /** Every object of every page is gathered for deletion, directory markers included. */
  lemma {:induction false} CollectedIdsHasEveryKey(pages: seq<Page>, i: nat, j: nat)
    requires i < |pages| && j < |pages[i].contents|
    ensures RequestBodies.ObjectId(pages[i].contents[j].key, None) in CollectedIds(pages)
    decreases |pages|
  {
    var head := PageIds(pages[0].contents);
    if i == 0 {
      assert head[j] == RequestBodies.ObjectId(pages[i].contents[j].key, None);
    } else {
      CollectedIdsHasEveryKey(pages[1..], i - 1, j);
    }
  }

  /** Nothing is gathered exactly when every page is empty. */
  lemma {:induction false} CollectedIdsEmpty(pages: seq<Page>)
    ensures CollectedIds(pages) == [] <==> forall i :: 0 <= i < |pages| ==> pages[i].contents == []
    decreases |pages|
  {
    if pages != [] {
      CollectedIdsEmpty(pages[1..]);
      assert forall i :: 1 <= i < |pages| ==> pages[i] == pages[1..][i - 1];
    }
  }

  // ---------------------------------------------------------------- the adapter

  /** The adapter: a client, a bucket and a prefixer, fixed at construction. */
  class HuaweiObsAdapter {
    const client: ScriptedClient
    const bucket: Str
    const prefixer: PathPrefixer

    constructor (client: ScriptedClient, bucket: Str, prefix: Str)
      ensures this.client == client && this.bucket == bucket && prefixer == NewPrefixer(prefix)
    {
      this.client := client;
      this.bucket := bucket;
      prefixer := NewPrefixer(prefix);
    }

    /** True exactly when `headObject` on the file's key returns; a throw means false. */
    method FileExists(path: Str) returns (found: bool)
      modifies client
      ensures client.trace == old(client.trace) + [HeadObject(bucket, prefixer.PrefixPath(path))]
      ensures client.script == RestOf(old(client.script))
      ensures found <==> NextReply(old(client.script)).Returned?
    {
      var reply := client.Perform(HeadObject(bucket, prefixer.PrefixPath(path)));
      found := reply.Returned?;
    }

    /** Lists at most one key under the directory: true exactly when one comes back; a throw means false. */
    method DirectoryExists(path: Str) returns (found: bool)
      modifies client
      ensures client.trace == old(client.trace) +
        [ListObjects(bucket, [("prefix", Signature.QStr(prefixer.PrefixDirectoryPath(path))), ("max-keys", Signature.QInt(1))])]
      ensures client.script == RestOf(old(client.script))
      ensures found <==> NextReply(old(client.script)).Returned? && NextReply(old(client.script)).page.contents != []
    {
      var location := prefixer.PrefixDirectoryPath(path);
      var query: Arr<Signature.QueryValue> := [("prefix", Signature.QStr(location)), ("max-keys", Signature.QInt(1))];
      var reply := client.Perform(ListObjects(bucket, query));
      found := reply.Returned? && reply.page.contents != [];
    }

    /** Puts the contents at the file's key with the config's options. */
    method Write(path: Str, contents: Str, config: Config) returns (outcome: Outcome<FilesystemError>)
      modifies client
      ensures client.trace == old(client.trace) + [PutObject(bucket, prefixer.PrefixPath(path), contents, ConfigOptions(config))]
      ensures client.script == RestOf(old(client.script))
      ensures outcome == match NextReply(old(client.script))
        case Thrown(message) => Fail(UnableToWriteFile(path, message))
        case Returned(_) => Pass
    {
      var options := ExtractOptionsFromConfig(config);
      var reply := client.Perform(PutObject(bucket, prefixer.PrefixPath(path), contents, options));
      outcome := if reply.Thrown? then Fail(UnableToWriteFile(path, reply.message)) else Pass;
    }

    /** Deletes the object at the file's key. */
    method Delete(path: Str) returns (outcome: Outcome<FilesystemError>)
      modifies client
      ensures client.trace == old(client.trace) + [DeleteObject(bucket, prefixer.PrefixPath(path))]
      ensures client.script == RestOf(old(client.script))
      ensures outcome == match NextReply(old(client.script))
        case Thrown(message) => Fail(UnableToDeleteFile(path, message))
        case Returned(_) => Pass
    {
      var reply := client.Perform(DeleteObject(bucket, prefixer.PrefixPath(path)));
      outcome := if reply.Thrown? then Fail(UnableToDeleteFile(path, reply.message)) else Pass;
    }

    /** Creates the empty directory-marker object at the directory's key, with no headers. */
    method CreateDirectory(path: Str, config: Config) returns (outcome: Outcome<FilesystemError>)
      modifies client
      ensures client.trace == old(client.trace) + [PutObject(bucket, prefixer.PrefixDirectoryPath(path), [], [])]
      ensures client.script == RestOf(old(client.script))
      ensures outcome == match NextReply(old(client.script))
        case Thrown(message) => Fail(UnableToCreateDirectory(path, message))
        case Returned(_) => Pass
    {
      var reply := client.Perform(PutObject(bucket, prefixer.PrefixDirectoryPath(path), [], []));
      outcome := if reply.Thrown? then Fail(UnableToCreateDirectory(path, reply.message)) else Pass;
    }

    /** Copies within the bucket, on the server, with the config's options. */
    method Copy(source: Str, destination: Str, config: Config) returns (outcome: Outcome<FilesystemError>)
      modifies client
      ensures client.trace == old(client.trace) +
        [CopyObject(bucket, prefixer.PrefixPath(source), bucket, prefixer.PrefixPath(destination), ConfigOptions(config))]
      ensures client.script == RestOf(old(client.script))
      ensures outcome == match NextReply(old(client.script))
        case Thrown(message) => Fail(UnableToCopyFile(source, destination, message))
        case Returned(_) => Pass
    {
      var options := ExtractOptionsFromConfig(config);
      var sourceKey := prefixer.PrefixPath(source);
      var destinationKey := prefixer.PrefixPath(destination);
      var reply := client.Perform(CopyObject(bucket, sourceKey, bucket, destinationKey, options));
      outcome := if reply.Thrown? then Fail(UnableToCopyFile(source, destination, reply.message)) else Pass;
    }

    /**
     * Copy, then delete the source. A failed copy stops before any delete;
     * a failed delete leaves the copy in place. Either failure is a move
     * failure carrying the one that caused it.
     */
    method Move(source: Str, destination: Str, config: Config) returns (outcome: Outcome<FilesystemError>)
      modifies client
      ensures var copy := CopyObject(bucket, prefixer.PrefixPath(source), bucket, prefixer.PrefixPath(destination), ConfigOptions(config));
        var first := NextReply(old(client.script));
        if first.Thrown? then
          && client.trace == old(client.trace) + [copy]
          && client.script == RestOf(old(client.script))
          && outcome == Fail(UnableToMoveFile(source, destination, UnableToCopyFile(source, destination, first.message)))
        else
          var second := NextReply(RestOf(old(client.script)));
          && client.trace == old(client.trace) + [copy, DeleteObject(bucket, prefixer.PrefixPath(source))]
          && client.script == RestOf(RestOf(old(client.script)))
          && outcome == if second.Thrown? then Fail(UnableToMoveFile(source, destination, UnableToDeleteFile(source, second.message)))
            else Pass
    {
      outcome := Copy(source, destination, config);
      if outcome.Fail? {
        outcome := Fail(UnableToMoveFile(source, destination, outcome.error));
        return;
      }
      outcome := Delete(source);
      if outcome.Fail? {
        outcome := Fail(UnableToMoveFile(source, destination, outcome.error));
      }
    }

    /** Always refuses: visibility cannot be changed, and the client is not called. */
    function SetVisibility(path: Str, visibility: Str): (r: Outcome<FilesystemError>)
      ensures r.Fail? && r.error.UnableToSetVisibility? && r.error.location == path
    {
      Fail(UnableToSetVisibility(path, VisibilityUnsupported))
    }

    /** Always private, without calling the client. */
    function Visibility(path: Str): (r: StorageAttributes)
      ensures r.FileAttributes? && r.path == path && r.visibility == Some(Private)
      ensures r.fileSize.None? && r.lastModified.None? && r.mimeType.None?
    {
      FileAttributes(path, None, Some(Private), None, None)
    }

    /**
     * Lists the directory page by page; yields each page's files, then its
     * directories when not deep. A throw ends the listing after what the
     * earlier pages yielded.
     */
    method ListContents(path: Str, deep: bool) returns (entries: seq<StorageAttributes>, outcome: Outcome<FilesystemError>)
      modifies client
      ensures var w := Pages(bucket, prefixer.PrefixDirectoryPath(path), deep, None, old(client.script));
        && client.trace == old(client.trace) + w.calls
        && client.script == w.rest
        && entries == Listing(prefixer, w.pages, deep)
        && outcome == if w.failure.Some? then Fail(ListingFailed(ListFailure + w.failure.value)) else Pass
    {
      var location := prefixer.PrefixDirectoryPath(path);
      ghost var whole := Pages(bucket, location, deep, None, client.script);
      ghost var trace0 := client.trace;
      var marker: Option<Str> := None;
      var more := true;
      entries := [];
      outcome := Pass;
      while more
        invariant more ==> var w := Pages(bucket, location, deep, marker, client.script);
          && trace0 + whole.calls == client.trace + w.calls
          && Listing(prefixer, whole.pages, deep) == entries + Listing(prefixer, w.pages, deep)
          && whole.failure == w.failure && whole.rest == w.rest && outcome.Pass?
        invariant !more ==>
          && client.trace == trace0 + whole.calls && client.script == whole.rest
          && entries == Listing(prefixer, whole.pages, deep)
          && outcome == if whole.failure.Some? then Fail(ListingFailed(ListFailure + whole.failure.value)) else Pass
        decreases |client.script|, more
      {
        ghost var script1 := client.script;
        ghost var trace1 := client.trace;
        ghost var entries1 := entries;
        var options := BuildListObjectsOptions(location, marker, deep);
        var call := ListObjects(bucket, options);
        var reply := client.Perform(call);
        match reply
        case Thrown(message) =>
          PagingFails(bucket, location, deep, marker, script1, message, trace0, trace1, whole);
          outcome := Fail(ListingFailed(ListFailure + message));
          more := false;
        case Returned(page) =>
          entries := entries + PageEntries(prefixer, page, deep);
          if page.nextMarker.Some? {
            PagingAdvance(bucket, location, deep, marker, script1, page, trace0, trace1, whole);
            ghost var v := Pages(bucket, location, deep, page.nextMarker, client.script);
            ListingAdvance(prefixer, deep, page, Pages(bucket, location, deep, marker, script1).pages, v.pages,
                           Listing(prefixer, whole.pages, deep), entries1);
          } else {
            PagingEnds(bucket, location, deep, marker, script1, page, trace0, trace1, whole);
            ListingAdvance(prefixer, deep, page, [page], [], Listing(prefixer, whole.pages, deep), entries1);
          }
          marker := page.nextMarker;
          more := marker.Some?;
      }
    }

    /**
     * Gathers every key under the directory, over every page, and deletes
     * them in one batch; makes no batch call when nothing was found. Any
     * throw becomes a directory-delete failure.
     */
    method DeleteDirectory(path: Str) returns (outcome: Outcome<FilesystemError>)
      modifies client
      ensures var w := Pages(bucket, prefixer.PrefixDirectoryPath(path), true, None, old(client.script));
        var ids := CollectedIds(w.pages);
        if w.failure.Some? then
          && client.trace == old(client.trace) + w.calls && client.script == w.rest
          && outcome == Fail(UnableToDeleteDirectory(path, w.failure.value))
        else if ids == [] then
          && client.trace == old(client.trace) + w.calls && client.script == w.rest
          && outcome == Pass
        else
          && client.trace == old(client.trace) + w.calls + [DeleteObjects(bucket, ids)]
          && client.script == RestOf(w.rest)
          && outcome == match NextReply(w.rest)
            case Thrown(message) => Fail(UnableToDeleteDirectory(path, message))
            case Returned(_) => Pass
    {
      var location := prefixer.PrefixDirectoryPath(path);
      ghost var whole := Pages(bucket, location, true, None, client.script);
      ghost var trace0 := client.trace;
      var objects: seq<RequestBodies.ObjectId> := [];
      var marker: Option<Str> := None;
      var more := true;
      var failure: Option<Str> := None;
      while more
        invariant more ==> var w := Pages(bucket, location, true, marker, client.script);
          && trace0 + whole.calls == client.trace + w.calls
          && CollectedIds(whole.pages) == objects + CollectedIds(w.pages)
          && whole.failure == w.failure && whole.rest == w.rest && failure.None?
        invariant !more ==>
          && client.trace == trace0 + whole.calls && client.script == whole.rest
          && objects == CollectedIds(whole.pages) && failure == whole.failure
        decreases |client.script|, more
      {
        ghost var script1 := client.script;
        ghost var trace1 := client.trace;
        ghost var objects1 := objects;
        var call := ListObjects(bucket, ListQuery(location, marker));
        var reply := client.Perform(call);
        match reply
        case Thrown(message) =>
          PagingFails(bucket, location, true, marker, script1, message, trace0, trace1, whole);
          failure := Some(message);
          more := false;
        case Returned(page) =>
          if page.contents != [] {
            objects := AppendIds(objects, page.contents);
          }
          assert objects == objects1 + PageIds(page.contents);
          if page.nextMarker.Some? {
            PagingAdvance(bucket, location, true, marker, script1, page, trace0, trace1, whole);
            ghost var v := Pages(bucket, location, true, page.nextMarker, client.script);
            CollectedIdsAdvance(page, Pages(bucket, location, true, marker, script1).pages, v.pages,
                                CollectedIds(whole.pages), objects1);
          } else {
            PagingEnds(bucket, location, true, marker, script1, page, trace0, trace1, whole);
            CollectedIdsAdvance(page, [page], [], CollectedIds(whole.pages), objects1);
          }
          marker := page.nextMarker;
          more := marker.Some?;
      }
      if failure.Some? {
        outcome := Fail(UnableToDeleteDirectory(path, failure.value));
        return;
      }
      outcome := Pass;
      if objects != [] {
        var reply := client.Perform(DeleteObjects(bucket, objects));
        if reply.Thrown? {
          outcome := Fail(UnableToDeleteDirectory(path, reply.message));
        }
      }
    }
  }

  /** Refuses an empty bucket name before anything else; otherwise builds the adapter. */
  method NewAdapter(client: ScriptedClient, bucket: Str, prefix: Str) returns (r: Result<HuaweiObsAdapter, Str>)
    ensures r.Failure? <==> bucket == []
    ensures r.Failure? ==> r.error == BucketRequired
    ensures r.Success? ==> r.value.client == client && r.value.bucket == bucket && r.value.prefixer == NewPrefixer(prefix)
  {
    if bucket == [] {
      return Failure(BucketRequired);
    }
    var adapter := new HuaweiObsAdapter(client, bucket, prefix);
    return Success(adapter);
  }
}
