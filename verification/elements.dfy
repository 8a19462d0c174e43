/**
 * What the four bundle-element decoders compute: bundle metadata, a named
 * query, a document's metadata and a document, each from the parser's
 * output for one element.
 */
module ElementDecoding {
  import opened Wrappers
  import opened JsonTree
  import opened Numbers
  import opened Model
  import opened ReadStatus
  import opened Reader
  import opened ValueDecoding
  import opened QueryDecoding

  /** `DecodeBundleMetadata`. */
  function BundleMetadataOf(lib: Library, s: Status, element: Parsed): (r: Decoded<BundleMetadata>)
    ensures Sticky(s, r.status)
    ensures element.Discarded? ==> r == Decoded(DefaultBundleMetadata, s.Fail(ParseFailure(element.text)))
    ensures UInt32.InRange(r.value.version) && UInt32.InRange(r.value.totalDocuments)
    ensures UInt64.InRange(r.value.totalBytes)
    ensures element.Tree? && r.status.Ok? ==>
      Contains(element.root, "id") && At(element.root, "id") == JStr(r.value.id)
    ensures element.Tree? ==>
      (r.status.Ok? <==>
         s.Ok? && Contains(element.root, "id") && At(element.root, "id").JStr? &&
         ReadInt(Ok, UInt32, "version", element.root).status.Ok? &&
         Contains(element.root, "createTime") && SnapshotVersionOf(lib, Ok, At(element.root, "createTime")).status.Ok? &&
         ReadInt(Ok, UInt32, "totalDocuments", element.root).status.Ok? &&
         ReadInt(Ok, UInt64, "totalBytes", element.root).status.Ok?)
    ensures element.Tree? && r.status.Ok? ==>
      r.value.version == ReadInt(Ok, UInt32, "version", element.root).value &&
      Contains(element.root, "createTime") &&
      r.value.createTime == SnapshotVersionOf(lib, Ok, At(element.root, "createTime")).value &&
      r.value.totalDocuments == ReadInt(Ok, UInt32, "totalDocuments", element.root).value &&
      r.value.totalBytes == ReadInt(Ok, UInt64, "totalBytes", element.root).value
  {
    match element
    case Discarded(text) => Decoded(DefaultBundleMetadata, s.Fail(ParseFailure(text)))
    case Tree(metadata) =>
      var id := ReadString(s, "id", metadata);
      var version := ReadInt(id.status, UInt32, "version", metadata);
      var createTimeJson := ReadChild(version.status, "createTime", metadata);
      var createTime := SnapshotVersionOf(lib, createTimeJson.status, createTimeJson.value);
      var totalDocuments := ReadInt(createTime.status, UInt32, "totalDocuments", metadata);
      var totalBytes := ReadInt(totalDocuments.status, UInt64, "totalBytes", metadata);
      Decoded(BundleMetadata(id.value, version.value, createTime.value, totalDocuments.value, totalBytes.value),
              totalBytes.status)
  }

  /** The status with which `DecodeNamedQuery` reaches `DecodeBundledQuery`, and the query it passes. */
  function NamedQueryPrefix(s: Status, namedQuery: Json): (r: Decoded<Json>)
    ensures FirstWins(s, r.status)
  {
    var name := ReadString(s, "name", namedQuery);
    ReadChild(name.status, "bundledQuery", namedQuery)
  }

  /** The shapes `DecodeNamedQuery` cannot handle: see `FromIsArray` and `ParentHasPrefix`. */
  predicate NamedQueryDecodable(lib: Library, rpc: RpcSerializer, s: Status, element: Parsed)
  {
    element.Tree? ==>
      var query := NamedQueryPrefix(s, element.root);
      FromIsArray(query.status, query.value) && ParentHasPrefix(lib, rpc, query.status, query.value)
  }

  /** `DecodeNamedQuery`. */
  function NamedQueryOf(lib: Library, rpc: RpcSerializer, s: Status, element: Parsed): (r: Decoded<NamedQuery>)
    requires NamedQueryDecodable(lib, rpc, s, element)
    ensures Sticky(s, r.status)
    ensures element.Discarded? ==> r == Decoded(DefaultNamedQuery, s.Fail(ParseFailure(element.text)))
    ensures element.Tree? && r.status.Ok? ==>
      Contains(element.root, "name") && At(element.root, "name") == JStr(r.value.name) &&
      Contains(element.root, "bundledQuery")
    ensures element.Tree? ==>
      (r.status.Ok? <==>
         s.Ok? && Contains(element.root, "name") && At(element.root, "name").JStr? &&
         Contains(element.root, "bundledQuery") &&
         BundledQueryOf(lib, rpc, Ok, At(element.root, "bundledQuery")).status.Ok? &&
         Contains(element.root, "readTime") && SnapshotVersionOf(lib, Ok, At(element.root, "readTime")).status.Ok?)
    ensures element.Tree? && r.status.Ok? ==>
      Contains(element.root, "bundledQuery") && Contains(element.root, "readTime") &&
      r.value.bundledQuery == BundledQueryOf(lib, rpc, Ok, At(element.root, "bundledQuery")).value &&
      r.value.readTime == SnapshotVersionOf(lib, Ok, At(element.root, "readTime")).value
  {
    match element
    case Discarded(text) => Decoded(DefaultNamedQuery, s.Fail(ParseFailure(text)))
    case Tree(namedQuery) =>
      var name := ReadString(s, "name", namedQuery);
      var queryJson := ReadChild(name.status, "bundledQuery", namedQuery);
      var query := BundledQueryOf(lib, rpc, queryJson.status, queryJson.value);
      var readTimeJson := ReadChild(query.status, "readTime", namedQuery);
      var readTime := SnapshotVersionOf(lib, readTimeJson.status, readTimeJson.value);
      Decoded(NamedQuery(name.value, query.value, readTime.value), readTime.status)
  }

  /**
   * `DocumentKey`'s constructor, which aborts on a path it does not accept:
   * it may only be reached while the reader is ok.
   */
  function MakeDocumentKey(path: ResourcePath, ghost s: Status): (r: DocumentKey)
    requires s.Ok?
    ensures r.path == path
  {
    DocumentKey(path)
  }

  /**
   * The loop over `queries` of `DecodeDocumentMetadata` from entry `i` on:
   * `None` as soon as an entry is not a string.
   */
  function QueryNamesFrom(items: seq<Json>, i: nat, acc: seq<string>): (r: Option<seq<string>>)
    requires i <= |items|
    decreases |items| - i
    ensures r.Some? <==> forall k :: i <= k < |items| ==> items[k].JStr?
    ensures r.Some? ==>
      |r.value| == |acc| + (|items| - i) && r.value[..|acc|] == acc &&
      forall k :: i <= k < |items| ==> r.value[|acc| + k - i] == items[k].str
  {
    if i == |items| then Some(acc)
    else if !items[i].JStr? then None
    else QueryNamesFrom(items, i + 1, acc + [items[i].str])
  }

  /**
   * What `DecodeName` receives passes `NameHasPrefix`: the `name` member, or
   * the element itself when `Require` finds none.
   */
  predicate NamePrefixed(lib: Library, rpc: RpcSerializer, root: Json)
  {
    NameHasPrefix(lib, rpc, if Contains(root, "name") then At(root, "name") else root)
  }

  /** The document name that `DecodeDocumentMetadata` and `DecodeDocument` decode first. */
  function DocumentName(lib: Library, rpc: RpcSerializer, s: Status, root: Json): (r: Decoded<ResourcePath>)
    requires NamePrefixed(lib, rpc, root)
    ensures FirstWins(s, r.status)
    ensures r.status.Ok? <==>
      s.Ok? && Contains(root, "name") && At(root, "name").JStr? &&
      rpc.isLocalResourceName(lib.resourcePathFromString(At(root, "name").str))
  {
    var nameJson := ReadChild(s, "name", root);
    NameOf(lib, rpc, nameJson.status, nameJson.value)
  }

  /** `DecodeDocumentMetadata`. */
  function DocumentMetadataOf(lib: Library, rpc: RpcSerializer, s: Status, element: Parsed)
    : (r: Decoded<BundledDocumentMetadata>)
    requires element.Tree? ==> NamePrefixed(lib, rpc, element.root)
    ensures Sticky(s, r.status)
    ensures element.Discarded? ==> r == Decoded(DefaultDocumentMetadata, s.Fail(ParseFailure(element.text)))
    ensures element.Tree? && DocumentName(lib, rpc, s, element.root).status.Failed? ==>
      r == Decoded(DefaultDocumentMetadata, DocumentName(lib, rpc, s, element.root).status)
    ensures element.Tree? && r.status.Ok? ==>
      r.value.key == DocumentKey(DocumentName(lib, rpc, s, element.root).value) &&
      r.value.documentExists == JsonReader.OptionalBool("exists", element.root) &&
      Contains(element.root, "queries") && At(element.root, "queries").JArr? &&
      |r.value.queries| == |At(element.root, "queries").items| &&
      forall k :: 0 <= k < |r.value.queries| ==> At(element.root, "queries").items[k] == JStr(r.value.queries[k])
    ensures element.Tree? ==>
      (r.status.Ok? <==>
         DocumentName(lib, rpc, s, element.root).status.Ok? &&
         Contains(element.root, "readTime") && SnapshotVersionOf(lib, Ok, At(element.root, "readTime")).status.Ok? &&
         Contains(element.root, "queries") && At(element.root, "queries").JArr? &&
         forall k :: 0 <= k < |At(element.root, "queries").items| ==> At(element.root, "queries").items[k].JStr?)
    ensures element.Tree? && r.status.Ok? ==>
      Contains(element.root, "readTime") &&
      r.value.readTime == SnapshotVersionOf(lib, Ok, At(element.root, "readTime")).value
    ensures element.Tree? && Contains(element.root, "queries") && At(element.root, "queries").JArr? &&
            (exists k :: 0 <= k < |At(element.root, "queries").items| && !At(element.root, "queries").items[k].JStr?) ==>
      r.value == DefaultDocumentMetadata && r.status.Failed?
  {
    match element
    case Discarded(text) => Decoded(DefaultDocumentMetadata, s.Fail(ParseFailure(text)))
    case Tree(metadata) =>
      var path := DocumentName(lib, rpc, s, metadata);
      if path.status.Failed? then Decoded(DefaultDocumentMetadata, path.status)
      else
        var key := MakeDocumentKey(path.value, path.status);
        var readTimeJson := ReadChild(path.status, "readTime", metadata);
        var readTime := SnapshotVersionOf(lib, readTimeJson.status, readTimeJson.value);
        var documentExists := JsonReader.OptionalBool("exists", metadata);
        var queries := ReadArray(readTime.status, "queries", metadata);
        match QueryNamesFrom(queries.value, 0, [])
        case None => Decoded(DefaultDocumentMetadata, queries.status.Fail(QueryNameNotString))
        case Some(names) => Decoded(BundledDocumentMetadata(key, readTime.value, documentExists, names), queries.status)
  }

  /**
   * `map_value.object_value()` in `DecodeDocument` as written needs a map:
   * whenever the name decodes, the document must carry an object `fields`.
   */
  predicate DocumentHasFields(lib: Library, rpc: RpcSerializer, s: Status, element: Parsed)
  {
    element.Tree? && NamePrefixed(lib, rpc, element.root) && DocumentName(lib, rpc, s, element.root).status.Ok? ==>
      Contains(element.root, "fields") && At(element.root, "fields").JObj?
  }

  /**
   * `DecodeDocument` as written: `map_value.object_value()` is reached with
   * whatever `DecodeMapValue` returned, failed reader or not, so it may only be
   * applied where that is a map.
   */
  function DocumentOfAsWritten(lib: Library, rpc: RpcSerializer, s: Status, element: Parsed)
    : (r: Decoded<BundleDocument>)
    requires element.Tree? ==> NamePrefixed(lib, rpc, element.root)
    requires DocumentHasFields(lib, rpc, s, element)
    ensures Sticky(s, r.status)
    ensures element.Tree? && DocumentName(lib, rpc, s, element.root).status.Ok? ==>
      r.value.document.key == DocumentKey(DocumentName(lib, rpc, s, element.root).value) &&
      r.value.document.data.Keys == MemberNames(At(element.root, "fields").members)
  {
    match element
    case Discarded(text) => Decoded(DefaultBundleDocument, s.Fail(ParseFailure(text)))
    case Tree(document) =>
      var path := DocumentName(lib, rpc, s, document);
      if path.status.Failed? then Decoded(DefaultBundleDocument, path.status)
      else
        var key := MakeDocumentKey(path.value, path.status);
        var updateTimeJson := ReadChild(path.status, "updateTime", document);
        var updateTime := SnapshotVersionOf(lib, updateTimeJson.status, updateTimeJson.value);
        var data := MapValueOf(lib, rpc, updateTime.status, document);
        MapValueKeys(lib, rpc, updateTime.status, document);
        Decoded(BundleDocument(Document(data.value.fields, key, updateTime.value, Synced)), data.status)
  }

  /**
   * A document with nothing but a name the wire serializer accepts: the name
   * decodes, `DecodeMapValue` hands back a null value, and the document as
   * written would call `object_value()` on it.
   */
  lemma FieldlessDocumentAborts(lib: Library, rpc: RpcSerializer, name: string)
    requires rpc.isLocalResourceName(lib.resourcePathFromString(name))
    requires |lib.resourcePathFromString(name)| >= 5
    ensures var element := Tree(JObj([("name", JStr(name))]));
      NamePrefixed(lib, rpc, element.root) &&
      DocumentName(lib, rpc, Ok, element.root).status.Ok? &&
      MapValueOf(lib, rpc, Ok, element.root).value == Null &&
      !DocumentHasFields(lib, rpc, Ok, element)
  {
    var root := JObj([("name", JStr(name))]);
    assert IndexOf(root.members, "name") == Some(0);
    assert IndexOf(root.members, "fields").None? by {
      assert IndexOf(root.members[1..], "fields").None?;
    }
  }

  /**
   * `DecodeDocument`, with the check `object_value()` is missing: a document
   * whose `fields` is absent or not an object fails like any other
   * malformed document instead of aborting. Always a synced document.
   */
  function DocumentOf(lib: Library, rpc: RpcSerializer, s: Status, element: Parsed): (r: Decoded<BundleDocument>)
    requires element.Tree? ==> NamePrefixed(lib, rpc, element.root)
    ensures Sticky(s, r.status)
    ensures element.Discarded? ==> r == Decoded(DefaultBundleDocument, s.Fail(ParseFailure(element.text)))
    ensures r.value.document.state == Synced
    ensures element.Tree? && DocumentName(lib, rpc, s, element.root).status.Failed? ==>
      r == Decoded(DefaultBundleDocument, DocumentName(lib, rpc, s, element.root).status)
    ensures element.Tree? && !(Contains(element.root, "fields") && At(element.root, "fields").JObj?) ==>
      r.value == DefaultBundleDocument && r.status.Failed?
    ensures element.Tree? ==>
      (r.status.Ok? <==>
         DocumentName(lib, rpc, s, element.root).status.Ok? &&
         Contains(element.root, "updateTime") && SnapshotVersionOf(lib, Ok, At(element.root, "updateTime")).status.Ok? &&
         Contains(element.root, "fields") && At(element.root, "fields").JObj? &&
         MapValueOf(lib, rpc, Ok, element.root).status.Ok?)
    ensures element.Tree? && r.status.Ok? ==>
      Contains(element.root, "updateTime") &&
      r.value.document.key == DocumentKey(DocumentName(lib, rpc, s, element.root).value) &&
      r.value.document.version == SnapshotVersionOf(lib, Ok, At(element.root, "updateTime")).value &&
      r.value.document.data == MapValueOf(lib, rpc, Ok, element.root).value.fields
    ensures element.Tree? && DocumentName(lib, rpc, s, element.root).status.Ok? &&
            Contains(element.root, "fields") && At(element.root, "fields").JObj? ==>
      r.value.document.key == DocumentKey(DocumentName(lib, rpc, s, element.root).value) &&
      r.value.document.data.Keys == MemberNames(At(element.root, "fields").members)
  {
    match element
    case Discarded(text) => Decoded(DefaultBundleDocument, s.Fail(ParseFailure(text)))
    case Tree(document) =>
      var path := DocumentName(lib, rpc, s, document);
      if path.status.Failed? then Decoded(DefaultBundleDocument, path.status)
      else
        var key := MakeDocumentKey(path.value, path.status);
        var updateTimeJson := ReadChild(path.status, "updateTime", document);
        var updateTime := SnapshotVersionOf(lib, updateTimeJson.status, updateTimeJson.value);
        var data := MapValueOf(lib, rpc, updateTime.status, document);
        if !data.value.MapValue? then Decoded(DefaultBundleDocument, data.status)
        else
          MapValueKeys(lib, rpc, updateTime.status, document);
          Decoded(BundleDocument(Document(data.value.fields, key, updateTime.value, Synced)), data.status)
  }

  /** Where the document as written does not abort, the corrected decoder agrees with it. */
  lemma DocumentOfAgrees(lib: Library, rpc: RpcSerializer, s: Status, element: Parsed)
    requires element.Tree? ==> NamePrefixed(lib, rpc, element.root)
    requires DocumentHasFields(lib, rpc, s, element)
    ensures DocumentOf(lib, rpc, s, element) == DocumentOfAsWritten(lib, rpc, s, element)
  {
  }
}
