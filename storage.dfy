/** The object store behind the gateway, held in memory: the bucket's `getObject` and
    `putObject` over a map from key to object. */
module Storage {
  import opened Basics
  import opened Streams

  /** A stored object. The ETag is the store's own validator; the gateway never computes it. */
  datatype StoredObject = StoredObject(content: seq<byte>, contentType: Option<string>, etag: string)

  type Store = map<string, StoredObject>

  /** What `getObject` returns for a present key: a stream over the content, and metadata. */
  datatype ObjectStream = ObjectStream(body: ChunkReader, etag: string, contentType: Option<string>)

  class Bucket {
    var objects: Store
    /** How the store derives the ETag of the content it is given. */
    const etagOf: seq<byte> -> string

    constructor (objects: Store, etagOf: seq<byte> -> string)
      ensures this.objects == objects && this.etagOf == etagOf
    {
      this.objects := objects;
      this.etagOf := etagOf;
    }

    /** `getObject(key)`: None for an absent key; otherwise a fresh stream whose chunks make up
        the stored content, with the stored ETag and content type. */
    method GetObject(key: string) returns (r: Option<ObjectStream>)
      ensures r.None? <==> key !in objects
      ensures r.Some? ==> fresh(r.value.body) && Concat(r.value.body.pending) == objects[key].content
      ensures r.Some? ==> r.value.etag == objects[key].etag && r.value.contentType == objects[key].contentType
    {
      if key !in objects {
        return None;
      }
      var obj := objects[key];
      var body := new ChunkReader([obj.content]);
      assert Concat([obj.content]) == obj.content + Concat([]);
      r := Some(ObjectStream(body, obj.etag, obj.contentType));
    }

    /** `putObject(key, content, {contentType})`: stores the object under `key`, replacing any
        object already there and leaving every other key as it was. */
    method PutObject(key: string, content: seq<byte>, contentType: string)
      modifies this
      ensures objects == old(objects)[key := StoredObject(content, Some(contentType), etagOf(content))]
    {
      objects := objects[key := StoredObject(content, Some(contentType), etagOf(content))];
    }
  }
}
