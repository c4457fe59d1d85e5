/**
 * The client as the adapter sees it: an object with one operation per OBS
 * call, each of which either returns a result array or throws. The model
 * records every call in a trace and answers each from a finite script of
 * replies; once the script is used up it answers an empty listing page.
 */
module ClientInterface {
  import opened Wrappers
  import opened Php
  import opened PhpArray
  import Signature
  import RequestBodies

  /** One entry of a listing's `Contents`: its `Key`, its `Size` and its `LastModified` time, when present. */
  datatype ObjectEntry = ObjectEntry(key: Str, size: Option<int>, lastModified: Option<int>)

  /** The fields of a result array the adapter reads: `Contents`, the `Prefix` of each of `CommonPrefixes`, and `NextMarker`. */
  datatype Page = Page(contents: seq<ObjectEntry>, commonPrefixes: seq<Str>, nextMarker: Option<Str>)

  /** An empty result array: no contents, no common prefixes, no `NextMarker`. */
  const EmptyPage: Page := Page([], [], None)

  /** A call on the client, with its arguments. */
  datatype Call =
    | HeadObject(bucket: Str, key: Str)
    | PutObject(bucket: Str, key: Str, content: Str, headers: Arr<Str>)
    | DeleteObject(bucket: Str, key: Str)
    | DeleteObjects(bucket: Str, objects: seq<RequestBodies.ObjectId>)
    | ListObjects(bucket: Str, query: Arr<Signature.QueryValue>)
    | CopyObject(sourceBucket: Str, sourceKey: Str, destBucket: Str, destKey: Str, headers: Arr<Str>)

  /** What a call does: return a result array, or throw with a message. */
  datatype Reply = Returned(page: Page) | Thrown(message: Str)

  /** The reply to the next call: the head of the script, or an empty result once the script is used up. */
  function NextReply(script: seq<Reply>): (r: Reply)
    ensures script == [] ==> r == Returned(EmptyPage)
    ensures script != [] ==> r == script[0]
  {
    if script == [] then Returned(EmptyPage) else script[0]
  }

  /** The script after one call: one reply shorter, until it is empty. */
  function RestOf(script: seq<Reply>): (r: seq<Reply>)
    ensures script != [] ==> |r| == |script| - 1
    ensures script == [] ==> r == []
  {
    if script == [] then [] else script[1..]
  }

  /** A client that records its calls and answers them from a script. */
  class ScriptedClient {
    var trace: seq<Call>
    var script: seq<Reply>

    constructor (script: seq<Reply>)
      ensures trace == [] && this.script == script
    {
      trace := [];
      this.script := script;
    }

    /** Records the call and answers it with the next reply of the script. */
    method Perform(call: Call) returns (reply: Reply)
      modifies this
      ensures trace == old(trace) + [call]
      ensures reply == NextReply(old(script)) && script == RestOf(old(script))
    {
      trace := trace + [call];
      reply := NextReply(script);
      script := RestOf(script);
    }
  }
}
