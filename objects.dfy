/** The values the object-list page works on: listed items, object keys and the
    payloads it hands to the rest of the application. */
module Objects {

  datatype Option<+T> = None | Some(value: T)

  /** One entry of a listing. A directory has no size and no modification time;
      a file has both. Timestamps are instants, modelled as an ordered integer
      (seconds relative to the epoch; negative before it). */
  datatype ObjectItem =
    | Dir(name: string, key: string, s3Uri: string, objectUrl: string)
    | File(name: string, sizeByte: nat, lastModified: int, key: string,
           s3Uri: string, arn: string, objectUrl: string, eTag: string)
  {
    /** `size_byte()`: `None` for a directory. */
    function SizeByte(): (r: Option<nat>)
      ensures r.Some? <==> File?
      ensures File? ==> r == Some(sizeByte)
    {
      match this
      case Dir(_, _, _, _) => None
      case File(_, s, _, _, _, _, _, _) => Some(s)
    }

    /** `last_modified()`: `None` for a directory. */
    function LastModified(): (r: Option<int>)
      ensures r.Some? <==> File?
      ensures File? ==> r == Some(lastModified)
    {
      match this
      case Dir(_, _, _, _) => None
      case File(_, _, t, _, _, _, _, _) => Some(t)
    }
  }

  /** A bucket and the path segments below it. */
  datatype ObjectKey = ObjectKey(bucketName: string, objectPath: seq<string>)

  /** One object found by enumerating a prefix, queued for download. */
  datatype DownloadObjectInfo = DownloadObjectInfo(key: string, sizeByte: nat)

  /** A single server-side copy request. */
  datatype PasteSpec = PasteSpec(srcBucket: string, srcKey: string, dstBucket: string, dstKey: string)

  /** The path segments joined by '/'. The go-to-path dialog is seeded with
      `joined_object_path(false)`, whose definition is not part of this model;
      it is taken to be this join, with no separator after the last segment. */
  function JoinPath(path: seq<string>): string
  {
    if path == [] then []
    else if |path| == 1 then path[0]
    else path[0] + "/" + JoinPath(path[1..])
  }
}
