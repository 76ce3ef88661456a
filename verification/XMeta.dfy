/** The current version's metadata, kept in extended attributes on the object file. */
module XMeta {
  import opened Types

  predicate Managed(f: File) { XManaged in f.xattrs }

  /** The value an attribute must have for metadata `m`, or None when it must be absent. */
  function Attribute(m: ObjectMeta, n: XName): Option<XVal> {
    var a := m.attrs;
    match n
    case XManaged => Some(Text("1"))
    case XVersionID => TextOrAbsent(m.versionID)
    case XETag => TextOrAbsent(a.etag)
    case XContentType => TextOrAbsent(a.contentType)
    case XContentEnc => TextOrAbsent(a.contentEncoding)
    case XContentLang => TextOrAbsent(a.contentLanguage)
    case XContentDisp => TextOrAbsent(a.contentDisposition)
    case XCacheControl => TextOrAbsent(a.cacheControl)
    case XExpires => TextOrAbsent(a.expires)
    case XStorageClass => TextOrAbsent(a.storageClass)
    case XUserMeta => if a.userMeta != map[] then Some(Pairs(a.userMeta)) else None
    case XTags => if a.tags != map[] then Some(Pairs(a.tags)) else None
    case XACL => if a.acl.Some? then Some(Text(a.acl.value)) else None
    case XRetention => if a.retention.Some? then Some(Ret(a.retention.value)) else None
    case XLegalHold => if a.legalHold.Some? then TextOrAbsent(a.legalHold.value) else None
  }

  function TextOrAbsent(s: string): Option<XVal> { if s != "" then Some(Text(s)) else None }

  /** The attribute set that stores `m` and nothing else. */
  function Encode(m: ObjectMeta): map<XName, XVal> {
    map n: XName | Attribute(m, n).Some? :: Attribute(m, n).value
  }

  function WriteXattrs(f: File, m: ObjectMeta): File {
    File(f.bytes, if m.lastModified != 0 then m.lastModified else f.mtime, Encode(m))
  }

  // ---- reading ----

  function TextOf(x: map<XName, XVal>, n: XName, default: string): string {
    if n in x && x[n].Text? then x[n].text else default
  }

  function PairsOf(x: map<XName, XVal>, n: XName): map<string, string> {
    if n in x && x[n].Pairs? then x[n].pairs else map[]
  }

  /** Metadata of an object file: from its attributes when managed, else synthesised. */
  function ReadCurrentMeta(f: File, key: string): ObjectMeta {
    var x := f.xattrs;
    if !Managed(f) then
      ObjectMeta("null", "", |f.bytes|, f.mtime, true, false,
                 NO_ATTRS.(etag := Md5Text(f.bytes), contentType := GuessContentType(key)))
    else
      ObjectMeta(TextOf(x, XVersionID, "null"), "", |f.bytes|, f.mtime, true, false,
        Attrs(TextOf(x, XETag, ""), TextOf(x, XContentType, ""), TextOf(x, XContentEnc, ""),
              TextOf(x, XContentLang, ""), TextOf(x, XContentDisp, ""), TextOf(x, XCacheControl, ""),
              TextOf(x, XExpires, ""), TextOf(x, XStorageClass, ""),
              PairsOf(x, XUserMeta), PairsOf(x, XTags),
              if XACL in x && x[XACL].Text? then Some(x[XACL].text) else None,
              if XRetention in x && x[XRetention].Ret? then Some(x[XRetention].ret) else None,
              if TextOf(x, XLegalHold, "") != "" then Some(TextOf(x, XLegalHold, "")) else None))
  }

  /** What the attributes can carry: an id, a time, and no legal hold with an empty status. */
  predicate Storable(m: ObjectMeta) {
    m.versionID != "" && m.lastModified != 0 && m.attrs.legalHold != Some("")
  }

  // ---- round trip ----

  lemma TextBack(m: ObjectMeta, n: XName, s: string, default: string)
    requires Attribute(m, n) == TextOrAbsent(s)
    ensures TextOf(Encode(m), n, default) == if s != "" then s else default
  {
  }

  lemma PairsBack(m: ObjectMeta, n: XName, p: map<string, string>)
    requires Attribute(m, n) == if p != map[] then Some(Pairs(p)) else None
    ensures PairsOf(Encode(m), n) == p
  {
  }

  lemma ContentBack(m: ObjectMeta)
    ensures TextOf(Encode(m), XETag, "") == m.attrs.etag
    ensures TextOf(Encode(m), XContentType, "") == m.attrs.contentType
    ensures TextOf(Encode(m), XContentEnc, "") == m.attrs.contentEncoding
    ensures TextOf(Encode(m), XContentLang, "") == m.attrs.contentLanguage
  {
    TextBack(m, XETag, m.attrs.etag, "");
    TextBack(m, XContentType, m.attrs.contentType, "");
    TextBack(m, XContentEnc, m.attrs.contentEncoding, "");
    TextBack(m, XContentLang, m.attrs.contentLanguage, "");
  }

  lemma CachingBack(m: ObjectMeta)
    ensures TextOf(Encode(m), XContentDisp, "") == m.attrs.contentDisposition
    ensures TextOf(Encode(m), XCacheControl, "") == m.attrs.cacheControl
    ensures TextOf(Encode(m), XExpires, "") == m.attrs.expires
    ensures TextOf(Encode(m), XStorageClass, "") == m.attrs.storageClass
  {
    TextBack(m, XContentDisp, m.attrs.contentDisposition, "");
    TextBack(m, XCacheControl, m.attrs.cacheControl, "");
    TextBack(m, XExpires, m.attrs.expires, "");
    TextBack(m, XStorageClass, m.attrs.storageClass, "");
  }

  lemma DocumentsBack(m: ObjectMeta)
    ensures PairsOf(Encode(m), XUserMeta) == m.attrs.userMeta
    ensures PairsOf(Encode(m), XTags) == m.attrs.tags
    ensures XACL in Encode(m) <==> m.attrs.acl.Some?
    ensures XACL in Encode(m) ==> Encode(m)[XACL] == Text(m.attrs.acl.value)
    ensures XRetention in Encode(m) <==> m.attrs.retention.Some?
    ensures XRetention in Encode(m) ==> Encode(m)[XRetention] == Ret(m.attrs.retention.value)
  {
    PairsBack(m, XUserMeta, m.attrs.userMeta);
    PairsBack(m, XTags, m.attrs.tags);
    assert XACL in Encode(m) <==> Attribute(m, XACL).Some?;
    assert XRetention in Encode(m) <==> Attribute(m, XRetention).Some?;
  }

  lemma LegalHoldBack(m: ObjectMeta)
    ensures TextOf(Encode(m), XLegalHold, "") == if m.attrs.legalHold.Some? then m.attrs.legalHold.value else ""
  {
    if m.attrs.legalHold.Some? {
      TextBack(m, XLegalHold, m.attrs.legalHold.value, "");
    } else {
      TextBack(m, XLegalHold, "", "");
    }
  }

  /** The attributes read back as they were written, but for an empty legal-hold status. */
  lemma AttrsBack(f: File, m: ObjectMeta, key: string)
    ensures Managed(WriteXattrs(f, m))
    ensures ReadCurrentMeta(WriteXattrs(f, m), key).attrs
         == if m.attrs.legalHold == Some("") then m.attrs.(legalHold := None) else m.attrs
  {
    assert Attribute(m, XManaged).Some?;
    ContentBack(m);
    CachingBack(m);
    DocumentsBack(m);
    LegalHoldBack(m);
  }

  /** Writing then reading gives the metadata back exactly when it describes a live, latest
      version at the key path whose size is the file's and whose values the attributes can carry
      (a zero time is carried only by a file that already has it). */
  lemma WriteThenRead(f: File, m: ObjectMeta, key: string)
    ensures ReadCurrentMeta(WriteXattrs(f, m), key) == m
        <==> m.versionID != "" && m.attrs.legalHold != Some("")
             && (m.lastModified != 0 || f.mtime == 0)
             && m.size == |f.bytes| && m.blobID == "" && m.isLatest && !m.deleteMarker
  {
    AttrsBack(f, m, key);
    TextBack(m, XVersionID, m.versionID, "null");
    var r := ReadCurrentMeta(WriteXattrs(f, m), key);
    assert r == ObjectMeta(if m.versionID != "" then m.versionID else "null", "", |f.bytes|,
                           if m.lastModified != 0 then m.lastModified else f.mtime, true, false, r.attrs);
  }

  // ---- the attribute-by-attribute writer ----

  /** Attribute `n` set to what `m` wants, or removed. */
  ghost function Put(x: map<XName, XVal>, m: ObjectMeta, n: XName): map<XName, XVal> {
    if Attribute(m, n).Some? then x[n := Attribute(m, n).value] else x - {n}
  }

  /** In the order the source sets them. */
  ghost function NameAt(i: nat): XName {
    if i == 0 then XManaged else if i == 1 then XVersionID else if i == 2 then XETag
    else if i == 3 then XContentType else if i == 4 then XContentEnc else if i == 5 then XContentLang
    else if i == 6 then XContentDisp else if i == 7 then XCacheControl else if i == 8 then XExpires
    else if i == 9 then XStorageClass else if i == 10 then XUserMeta else if i == 11 then XTags
    else if i == 12 then XACL else if i == 13 then XRetention else XLegalHold
  }

  /** The first `done` attributes set or removed. */
  ghost function PutFirst(x: map<XName, XVal>, m: ObjectMeta, done: nat): map<XName, XVal> {
    if done == 0 then x else Put(PutFirst(x, m, done - 1), m, NameAt(done - 1))
  }

  lemma {:induction false} PutFirstSets(x: map<XName, XVal>, m: ObjectMeta, done: nat, i: nat)
    requires i < done
    ensures var n, y := NameAt(i), PutFirst(x, m, done);
            Attribute(m, n) == if n in y then Some(y[n]) else None
  {
    if NameAt(done - 1) != NameAt(i) {
      PutFirstSets(x, m, done - 1, i);
    }
  }

  ghost function IndexOf(n: XName): (i: nat)
    ensures i < 15 && NameAt(i) == n
  {
    match n
    case XManaged => 0 case XVersionID => 1 case XETag => 2 case XContentType => 3 case XContentEnc => 4
    case XContentLang => 5 case XContentDisp => 6 case XCacheControl => 7 case XExpires => 8
    case XStorageClass => 9 case XUserMeta => 10 case XTags => 11 case XACL => 12 case XRetention => 13
    case XLegalHold => 14
  }

  lemma PutFirstIsEncode(x: map<XName, XVal>, m: ObjectMeta)
    ensures PutFirst(x, m, 15) == Encode(m)
  {
    var y := PutFirst(x, m, 15);
    forall n: XName ensures Attribute(m, n) == if n in y then Some(y[n]) else None {
      PutFirstSets(x, m, 15, IndexOf(n));
    }
  }

  method SetOrRemove(x: map<XName, XVal>, n: XName, v: XVal, present: bool,
                     ghost x0: map<XName, XVal>, ghost m: ObjectMeta, ghost done: nat)
      returns (r: map<XName, XVal>)
    requires x == PutFirst(x0, m, done) && n == NameAt(done)
    requires Attribute(m, n) == if present then Some(v) else None
    ensures r == PutFirst(x0, m, done + 1)
  {
    if present {
      r := x[n := v];
    } else {
      r := x - {n};
    }
  }

  method SetText(x: map<XName, XVal>, n: XName, s: string,
                 ghost x0: map<XName, XVal>, ghost m: ObjectMeta, ghost done: nat)
      returns (r: map<XName, XVal>)
    requires x == PutFirst(x0, m, done) && n == NameAt(done)
    requires Attribute(m, n) == TextOrAbsent(s)
    ensures r == PutFirst(x0, m, done + 1)
  {
    r := SetOrRemove(x, n, Text(s), s != "", x0, m, done);
  }

  method WriteTexts(x0: map<XName, XVal>, m: ObjectMeta) returns (x: map<XName, XVal>)
    ensures x == PutFirst(x0, m, 10)
  {
    x := WriteIdentity(x0, m);
    x := WriteHeaders(x, m, x0);
  }

  method WriteIdentity(x0: map<XName, XVal>, m: ObjectMeta) returns (x: map<XName, XVal>)
    ensures x == PutFirst(x0, m, 5)
  {
    x := SetOrRemove(x0, XManaged, Text("1"), true, x0, m, 0);
    hide PutFirst;
    x := SetText(x, XVersionID, m.versionID, x0, m, 1);
    x := SetText(x, XETag, m.attrs.etag, x0, m, 2);
    x := SetText(x, XContentType, m.attrs.contentType, x0, m, 3);
    x := SetText(x, XContentEnc, m.attrs.contentEncoding, x0, m, 4);
  }

  method WriteHeaders(x': map<XName, XVal>, m: ObjectMeta, ghost x0: map<XName, XVal>) returns (x: map<XName, XVal>)
    requires x' == PutFirst(x0, m, 5)
    ensures x == PutFirst(x0, m, 10)
  {
    hide PutFirst;
    x := x';
    x := SetText(x, XContentLang, m.attrs.contentLanguage, x0, m, 5);
    x := SetText(x, XContentDisp, m.attrs.contentDisposition, x0, m, 6);
    x := SetText(x, XCacheControl, m.attrs.cacheControl, x0, m, 7);
    x := SetText(x, XExpires, m.attrs.expires, x0, m, 8);
    x := SetText(x, XStorageClass, m.attrs.storageClass, x0, m, 9);
  }

  method WriteDocuments(x': map<XName, XVal>, m: ObjectMeta, ghost x0: map<XName, XVal>)
      returns (x: map<XName, XVal>)
    requires x' == PutFirst(x0, m, 10)
    ensures x == PutFirst(x0, m, 15)
  {
    hide PutFirst;
    var a := m.attrs;
    x := SetOrRemove(x', XUserMeta, Pairs(a.userMeta), a.userMeta != map[], x0, m, 10);
    x := SetOrRemove(x, XTags, Pairs(a.tags), a.tags != map[], x0, m, 11);
    x := SetOrRemove(x, XACL, if a.acl.Some? then Text(a.acl.value) else Text(""), a.acl.Some?, x0, m, 12);
    x := SetOrRemove(x, XRetention, if a.retention.Some? then Ret(a.retention.value) else Text(""),
                     a.retention.Some?, x0, m, 13);
    x := SetText(x, XLegalHold, if a.legalHold.Some? then a.legalHold.value else "", x0, m, 14);
  }

  /** Whatever attributes the file had, exactly those of `m` remain: every name is set or removed. */
  method WriteCurrentXattrs(f: File, m: ObjectMeta) returns (r: File)
    ensures r == WriteXattrs(f, m)
  {
    var x := WriteTexts(f.xattrs, m);
    x := WriteDocuments(x, m, f.xattrs);
    PutFirstIsEncode(f.xattrs, m);
    r := File(f.bytes, f.mtime, x);
    if m.lastModified != 0 {
      r := r.(mtime := m.lastModified);
    }
  }
}
