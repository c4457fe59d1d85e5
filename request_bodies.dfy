/**
 * The XML request bodies ObsClient writes for deleteObjects and
 * completeMultipartUpload, and readers that take them apart again: each
 * body lists its entries in order, with every text escaped, and reads back
 * to the very entries it was built from.
 */
module RequestBodies {
  import opened Wrappers
  import opened Php
  import opened XmlText

  const XmlDeclaration: Str := "<?xml version=\"1.0\" encoding=\"UTF-8\"?>"

  // ================================================================ deleteObjects

  /** One entry of deleteObjects' list: a key and, optionally, a version. */
  datatype ObjectId = ObjectId(key: Str, versionId: Option<Str>)

  /** The texts of the entry are well-formed UTF-8, so escaping keeps them. */
  predicate ObjectIdIsUtf8(o: ObjectId)
  {
    ValidUtf8(o.key) && (o.versionId.Some? ==> ValidUtf8(o.versionId.value))
  }

  function VersionXml(versionId: Option<Str>): Str
  {
    if versionId.Some? then Element("VersionId", XmlEscape(versionId.value)) else []
  }

  /** `<Object><Key>k</Key>[<VersionId>v</VersionId>]</Object>` */
  function ObjectXml(o: ObjectId): Str
  {
    Open("Object") + Element("Key", XmlEscape(o.key)) + VersionXml(o.versionId) + Close("Object")
  }

  function ObjectsXml(objects: seq<ObjectId>): Str
    decreases |objects|
  {
    if objects == [] then [] else ObjectsXml(objects[..|objects| - 1]) + ObjectXml(objects[|objects| - 1])
  }

  /** The deleteObjects body. */
  function DeleteXml(objects: seq<ObjectId>): Str
  {
    XmlDeclaration + Open("Delete") + ObjectsXml(objects) + Close("Delete")
  }

  /** deleteObjects' body builder. */
  method DeleteObjectsBody(objects: seq<ObjectId>) returns (xml: Str)
    ensures xml == DeleteXml(objects)
  {
    xml := XmlDeclaration;
    xml := xml + Open("Delete");
    xml := AppendObjects(xml, objects);
    xml := xml + Close("Delete");
  }

  /** The loop of deleteObjects: one `<Object>` element per entry, in order. */
  method AppendObjects(xml: Str, objects: seq<ObjectId>) returns (r: Str)
    ensures r == xml + ObjectsXml(objects)
  {
    r := xml;
    for i := 0 to |objects|
      invariant r == xml + ObjectsXml(objects[..i])
    {
      assert objects[..i + 1][..i] == objects[..i];
      var element := ObjectXml(objects[i]);
      ConcatAssoc(xml, ObjectsXml(objects[..i]), element);
      r := r + element;
    }
    assert objects[..|objects|] == objects;
  }

  /** Reads the `<VersionId>` element, when there is one, at the start of t. */
  function ReadVersion(t: Str): (r: Option<(Option<Str>, Str)>)
    ensures r.Some? ==> |r.value.1| <= |t|
  {
    if Open("VersionId") <= t then
      match ReadElement("VersionId", t)
      case None => None
      case Some((version, tail)) => Some((Some(XmlUnescape(version)), tail))
    else Some((None, t))
  }

  /** Reads one `<Object>` element at the start of t: the entry and what follows it. */
  function ReadObject(t: Str): (r: Option<(ObjectId, Str)>)
    ensures r.Some? ==> |r.value.1| < |t|
  {
    var open, close := Open("Object"), Close("Object");
    if !(open <= t) then None
    else
      match ReadElement("Key", t[|open|..])
      case None => None
      case Some((key, rest)) =>
        match ReadVersion(rest)
        case None => None
        case Some((version, tail)) =>
          if close <= tail then Some((ObjectId(XmlUnescape(key), version), tail[|close|..])) else None
  }

  /** Reads `<Object>` elements for as long as there are any. */
  function ReadObjects(t: Str): (seq<ObjectId>, Str)
    decreases |t|
  {
    match ReadObject(t)
    case None => ([], t)
    case Some((o, rest)) =>
      var (more, tail) := ReadObjects(rest);
      ([o] + more, tail)
  }

  /** Reads a whole deleteObjects body back into its entries. */
  function ReadDeleteXml(xml: Str): Option<seq<ObjectId>>
  {
    var head := XmlDeclaration + Open("Delete");
    if !(head <= xml) then None
    else
      var (objects, tail) := ReadObjects(xml[|head|..]);
      if tail == Close("Delete") then Some(objects) else None
  }

  /** Escaped text holds no '<', so an element around it reads back. */
  lemma EscapedHasNoOpen(s: Str)
    ensures '<' !in XmlEscape(s)
  {
    EscapedHasNoMarkup(s);
    var e := XmlEscape(s);
    forall i | 0 <= i < |e| ensures e[i] != '<' {
      assert e[i] !in "<>\"'";
    }
  }

  /** Reading one element back gives the entry it was built from, whatever follows it. */
  lemma ReadObjectOf(o: ObjectId, rest: Str)
    requires ObjectIdIsUtf8(o)
    ensures ReadObject(ObjectXml(o) + rest) == Some((o, rest))
  {
    var close := Close("Object");
    ReadKeyOf(o, rest);
    XmlUnescapeEscape(o.key);
    ReadVersionOf(o.versionId, rest);
    assert (close + rest)[|close|..] == rest;
  }

  /** The optional `<VersionId>` element reads back as the version, before the closing tag. */
  lemma ReadVersionOf(versionId: Option<Str>, rest: Str)
    requires versionId.Some? ==> ValidUtf8(versionId.value)
    ensures ReadVersion(VersionXml(versionId) + (Close("Object") + rest)) == Some((versionId, Close("Object") + rest))
  {
    var tail := Close("Object") + rest;
    if versionId.Some? {
      var ev := XmlEscape(versionId.value);
      EscapedHasNoOpen(versionId.value);
      XmlUnescapeEscape(versionId.value);
      ElementOpens("VersionId", ev, tail);
      ReadElementOf("VersionId", ev, tail);
    } else {
      assert VersionXml(versionId) + tail == tail;
      CloseIsNotOpen("VersionId", "Object", rest);
    }
  }

  /** The `<Key>` element of an entry reads back as the escaped key. */
  lemma ReadKeyOf(o: ObjectId, rest: Str)
    ensures Open("Object") <= ObjectXml(o) + rest
    ensures ReadElement("Key", (ObjectXml(o) + rest)[|Open("Object")|..])
         == Some((XmlEscape(o.key), VersionXml(o.versionId) + (Close("Object") + rest)))
  {
    var open, close := Open("Object"), Close("Object");
    var ek := XmlEscape(o.key);
    var version := VersionXml(o.versionId);
    var t := ObjectXml(o) + rest;
    var key := Element("Key", ek);
    EscapedHasNoOpen(o.key);
    ConcatAssoc(open + key + version, close, rest);
    ConcatAssoc(open + key, version, close + rest);
    ConcatAssoc(open, key, version + (close + rest));
    assert t == open + (key + (version + (close + rest)));
    assert t[|open|..] == key + (version + (close + rest));
    ReadElementOf("Key", ek, version + (close + rest));
  }

  lemma {:induction false} ObjectsXmlCons(objects: seq<ObjectId>)
    requires objects != []
    ensures ObjectsXml(objects) == ObjectXml(objects[0]) + ObjectsXml(objects[1..])
    decreases |objects|
  {
    var n := |objects| - 1;
    if n > 0 {
      ObjectsXmlCons(objects[..n]);
      assert objects[..n][1..] == objects[1..][..n - 1];
      assert objects[..n][0] == objects[0];
      ConcatAssoc(ObjectXml(objects[0]), ObjectsXml(objects[1..][..n - 1]), ObjectXml(objects[n]));
    } else {
      assert objects[..0] == [] && objects[1..] == [];
    }
  }

  /** A run of elements reads back to its entries, stopping where the elements end. */
  lemma {:induction false} ReadObjectsOf(objects: seq<ObjectId>, tail: Str)
    requires forall i :: 0 <= i < |objects| ==> ObjectIdIsUtf8(objects[i])
    requires ReadObject(tail) == None
    ensures ReadObjects(ObjectsXml(objects) + tail) == (objects, tail)
    decreases |objects|
  {
    if objects != [] {
      var first, others := objects[0], objects[1..];
      assert objects == [first] + others;
      ObjectsXmlCons(objects);
      var rest := ObjectsXml(others) + tail;
      ConcatAssoc(ObjectXml(first), ObjectsXml(others), tail);
      ReadObjectOf(first, rest);
      ReadObjectsOf(others, tail);
    } else {
      assert ObjectsXml(objects) + tail == tail;
    }
  }

  /** Reading a deleteObjects body gives back its entries, in order, when their texts are UTF-8. */
  lemma {:induction false} DeleteXmlRoundTrip(objects: seq<ObjectId>)
    requires forall i :: 0 <= i < |objects| ==> ObjectIdIsUtf8(objects[i])
    ensures ReadDeleteXml(DeleteXml(objects)) == Some(objects)
  {
    var head := XmlDeclaration + Open("Delete");
    var close := Close("Delete");
    assert ReadObject(close) == None by {
      CloseIsNotOpen("Object", "Delete", []);
      assert close + [] == close;
    }
    ReadObjectsOf(objects, close);
    var xml := DeleteXml(objects);
    ConcatAssoc(head, ObjectsXml(objects), close);
    assert xml[|head|..] == ObjectsXml(objects) + close;
  }

  // ================================================================ completeMultipartUpload

  /** One uploaded part: its number and the ETag the upload returned. */
  datatype Part = Part(partNumber: int, etag: Str)

  /** `<Part><PartNumber>n</PartNumber><ETag>e</ETag></Part>`: the number as written, the ETag escaped. */
  function PartXml(part: Part): Str
  {
    Open("Part") + Element("PartNumber", IntToStr(part.partNumber)) + Element("ETag", XmlEscape(part.etag))
      + Close("Part")
  }

  function PartsXml(parts: seq<Part>): Str
    decreases |parts|
  {
    if parts == [] then [] else PartsXml(parts[..|parts| - 1]) + PartXml(parts[|parts| - 1])
  }

  /** The completeMultipartUpload body. */
  function CompleteXml(parts: seq<Part>): Str
  {
    XmlDeclaration + Open("CompleteMultipartUpload") + PartsXml(parts) + Close("CompleteMultipartUpload")
  }

  /** completeMultipartUpload's body builder. */
  method CompleteMultipartUploadBody(parts: seq<Part>) returns (xml: Str)
    ensures xml == CompleteXml(parts)
  {
    xml := XmlDeclaration;
    xml := xml + Open("CompleteMultipartUpload");
    xml := AppendParts(xml, parts);
    xml := xml + Close("CompleteMultipartUpload");
  }

  /** The loop of completeMultipartUpload: one `<Part>` element per part, in order. */
  method AppendParts(xml: Str, parts: seq<Part>) returns (r: Str)
    ensures r == xml + PartsXml(parts)
  {
    r := xml;
    for i := 0 to |parts|
      invariant r == xml + PartsXml(parts[..i])
    {
      assert parts[..i + 1][..i] == parts[..i];
      var element := PartXml(parts[i]);
      ConcatAssoc(xml, PartsXml(parts[..i]), element);
      r := r + element;
    }
    assert parts[..|parts|] == parts;
  }

  /** Reads the number and ETag elements of a part: the part and what follows them. */
  function ReadPartFields(t: Str): (r: Option<(Part, Str)>)
    ensures r.Some? ==> |r.value.1| < |t|
  {
    match ReadElement("PartNumber", t)
    case None => None
    case Some((number, rest)) =>
      match ReadElement("ETag", rest)
      case None => None
      case Some((etag, tail)) =>
        match ParseInt(number)
        case None => None
        case Some(n) => Some((Part(n, XmlUnescape(etag)), tail))
  }

  /** Reads one `<Part>` element at the start of t: the part and what follows it. */
  function ReadPart(t: Str): (r: Option<(Part, Str)>)
    ensures r.Some? ==> |r.value.1| < |t|
  {
    var open, close := Open("Part"), Close("Part");
    if !(open <= t) then None
    else
      match ReadPartFields(t[|open|..])
      case None => None
      case Some((part, tail)) => if close <= tail then Some((part, tail[|close|..])) else None
  }

  /** Reads `<Part>` elements for as long as there are any. */
  function ReadParts(t: Str): (seq<Part>, Str)
    decreases |t|
  {
    match ReadPart(t)
    case None => ([], t)
    case Some((part, rest)) =>
      var (more, tail) := ReadParts(rest);
      ([part] + more, tail)
  }

  /** Reads a whole completeMultipartUpload body back into its parts. */
  function ReadCompleteXml(xml: Str): Option<seq<Part>>
  {
    var head := XmlDeclaration + Open("CompleteMultipartUpload");
    if !(head <= xml) then None
    else
      var (parts, tail) := ReadParts(xml[|head|..]);
      if tail == Close("CompleteMultipartUpload") then Some(parts) else None
  }

  /** The number and ETag elements of a part read back as written, whatever follows them. */
  lemma ReadPartFieldsOf(part: Part, after: Str)
    requires ValidUtf8(part.etag)
    ensures ReadPartFields(Element("PartNumber", IntToStr(part.partNumber)) + (Element("ETag", XmlEscape(part.etag)) + after))
         == Some((part, after))
  {
    IntToStrExcludes(part.partNumber, '<');
    EscapedHasNoOpen(part.etag);
    ReadElementOf("PartNumber", IntToStr(part.partNumber), Element("ETag", XmlEscape(part.etag)) + after);
    ReadElementOf("ETag", XmlEscape(part.etag), after);
    ParseIntToStr(part.partNumber);
    XmlUnescapeEscape(part.etag);
  }

  /** Reading one element back gives the part it was built from, whatever follows it. */
  lemma ReadPartOf(part: Part, rest: Str)
    requires ValidUtf8(part.etag)
    ensures ReadPart(PartXml(part) + rest) == Some((part, rest))
  {
    var open, close := Open("Part"), Close("Part");
    var number := Element("PartNumber", IntToStr(part.partNumber));
    var etag := Element("ETag", XmlEscape(part.etag));
    var t := PartXml(part) + rest;
    ConcatAssoc(open + number + etag, close, rest);
    ConcatAssoc(open + number, etag, close + rest);
    ConcatAssoc(open, number, etag + (close + rest));
    assert t == open + (number + (etag + (close + rest)));
    assert t[|open|..] == number + (etag + (close + rest));
    ReadPartFieldsOf(part, close + rest);
    assert (close + rest)[|close|..] == rest;
  }

  lemma {:induction false} PartsXmlCons(parts: seq<Part>)
    requires parts != []
    ensures PartsXml(parts) == PartXml(parts[0]) + PartsXml(parts[1..])
    decreases |parts|
  {
    var n := |parts| - 1;
    if n > 0 {
      PartsXmlCons(parts[..n]);
      assert parts[..n][1..] == parts[1..][..n - 1];
      assert parts[..n][0] == parts[0];
      ConcatAssoc(PartXml(parts[0]), PartsXml(parts[1..][..n - 1]), PartXml(parts[n]));
    } else {
      assert parts[..0] == [] && parts[1..] == [];
    }
  }

  /** One step of ReadParts: a part read at the front, then the parts after it. */
  lemma ReadPartsStep(t: Str, part: Part, rest: Str)
    requires ReadPart(t) == Some((part, rest))
    ensures ReadParts(t) == ([part] + ReadParts(rest).0, ReadParts(rest).1)
  {
  }

  /** A part element at the front is read, then reading goes on after it. */
  lemma ReadPartsCons(part: Part, rest: Str)
    requires ValidUtf8(part.etag)
    ensures ReadParts(PartXml(part) + rest) == ([part] + ReadParts(rest).0, ReadParts(rest).1)
  {
    ReadPartOf(part, rest);
    ReadPartsStep(PartXml(part) + rest, part, rest);
  }

  /** A run of part elements reads back to its parts, stopping where the elements end. */

  lemma {:induction false} ReadPartsOf(parts: seq<Part>, tail: Str)
    requires forall i :: 0 <= i < |parts| ==> ValidUtf8(parts[i].etag)
    requires ReadPart(tail) == None
    ensures ReadParts(PartsXml(parts) + tail) == (parts, tail)
    decreases |parts|
  {
    if parts == [] {
      assert PartsXml(parts) + tail == tail;
    } else {
      var rest := PartsXml(parts[1..]) + tail;
      PartsXmlConsTail(parts, tail);
      EtagsOfTail(parts);
      ReadPartsOf(parts[1..], tail);
      ReadPartsCons(parts[0], rest);
      ConsTail(parts);
    }
  }

  /** The body of a non-empty run with something after it: the first element, then the rest of the run and what follows. */
  lemma PartsXmlConsTail(parts: seq<Part>, tail: Str)
    requires parts != []
    ensures PartsXml(parts) + tail == PartXml(parts[0]) + (PartsXml(parts[1..]) + tail)
  {
    PartsXmlCons(parts);
    ConcatAssoc(PartXml(parts[0]), PartsXml(parts[1..]), tail);
  }

  /** The ETags of a run's first part and of the parts after it are UTF-8 when all of the run's are. */
  lemma EtagsOfTail(parts: seq<Part>)
    requires parts != []
    requires forall i :: 0 <= i < |parts| ==> ValidUtf8(parts[i].etag)
    ensures ValidUtf8(parts[0].etag)
    ensures forall i :: 0 <= i < |parts[1..]| ==> ValidUtf8(parts[1..][i].etag)
  {
    forall i | 0 <= i < |parts[1..]| ensures ValidUtf8(parts[1..][i].etag) {
      assert parts[1..][i] == parts[i + 1];
    }
  }

  /**
   * Reading a completeMultipartUpload body gives back its parts, in order,
   * numbers included, when the ETags are UTF-8.
   */
  lemma {:induction false} CompleteXmlRoundTrip(parts: seq<Part>)
    requires forall i :: 0 <= i < |parts| ==> ValidUtf8(parts[i].etag)
    ensures ReadCompleteXml(CompleteXml(parts)) == Some(parts)
  {
    var head := XmlDeclaration + Open("CompleteMultipartUpload");
    var close := Close("CompleteMultipartUpload");
    assert ReadPart(close) == None by {
      CloseIsNotOpen("Part", "CompleteMultipartUpload", []);
      assert close + [] == close;
    }
    ReadPartsOf(parts, close);
    var xml := CompleteXml(parts);
    ConcatAssoc(head, PartsXml(parts), close);
    assert xml[|head|..] == PartsXml(parts) + close;
  }
}
