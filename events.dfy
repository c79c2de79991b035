/** The events the object-list page sends to the rest of the application. */
module Events {
  import opened Objects

  datatype AppEvent =
    | ObjectListMoveDown
    | ObjectListMoveUp
    | ObjectListRefresh
    | BackToBucketList
    | ObjectListOpenManagementConsole(dirKey: ObjectKey)
    /** Jump to a prefix typed by the user, in the page's bucket. */
    | GoToPath(bucketName: string, prefix: string)
    | OpenHelp
    | CopyObject(key: ObjectKey, item: ObjectItem)
    | StartPasteObject(dirKey: ObjectKey)
    | CopyToClipboard(name: string, value: string)
    /** Enumerate everything below a directory before confirming a download. */
    | StartLoadAllDownloadObjectList(key: ObjectKey, downloadAs: bool)
    | StartDownloadObject(key: ObjectKey, name: string, sizeByte: nat)
    | StartDownloadObjectAs(key: ObjectKey, sizeByte: nat, name: string)
    | DownloadObjects(bucketName: string, key: ObjectKey, dir: string, objs: seq<DownloadObjectInfo>)
    | PasteObject(spec: PasteSpec)
}
