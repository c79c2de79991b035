/** The abstract user events the key mapper produces and the object-list page
    reacts to. A key press maps to zero or more of them. */
module Keys {

  datatype UserEvent =
    // the list view
    | ObjectListSelect | ObjectListBack | ObjectListDown | ObjectListUp
    | ObjectListGoToTop | ObjectListGoToBottom | ObjectListPageDown | ObjectListPageUp
    | ObjectListRefresh | ObjectListBucketList | ObjectListManagementConsole
    | ObjectListFilter | ObjectListSort | ObjectListGoToPath | ObjectListCopyObject
    | ObjectListPasteObject | ObjectListCopyDetails | ObjectListDownloadObject
    | ObjectListDownloadObjectAs | ObjectListResetFilter
    // text input dialogs
    | InputDialogClose | InputDialogApply
    // picker and confirmation dialogs
    | SelectDialogClose | SelectDialogDown | SelectDialogUp | SelectDialogSelect
    | SelectDialogLeft | SelectDialogRight
    // everywhere
    | Help
    /** Any event of another page, which no table here names. */
    | Other
}
