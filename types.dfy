/** Value types shared by every component of the tweet sweeper. */
module Types {

  /** A value that may be missing: JavaScript's `null`/`undefined`. */
  datatype Option<+T> = None | Some(value: T)

  /** The outcome of a step that can fail. */
  datatype Result<+T, +E> = Success(value: T) | Failure(error: E)

  /** A Twitter screen name, compared exactly (no case folding). */
  type Handle = string

  /** An Engage recipient (contact) id, as the export delivers it. */
  type RecipientId = string

  type Email = string

  /** An Engage contact list id. */
  type ContactListId = int

  /** The id Twitter gives the temporary list. */
  type TwitterListId = int

  /** One status returned by Twitter's `lists/statuses`: its author and its text. */
  datatype Tweet = Tweet(screenName: Handle, text: string)

  /** The external calls the sweeper issues, in the order it issues them. */
  datatype ExternalCall =
    | ExportList                                             // engage.exportListForEach
    | CreateList                                             // twitter lists/create
    | PopulateList(listId: TwitterListId, handles: seq<Handle>)  // twitter lists/members/create_all
    | ReadStatuses(listId: TwitterListId)                    // twitter lists/statuses
    | AddContact(recipientId: RecipientId, contactListId: ContactListId)  // engage.addContactToContactList
    | DestroyList(listId: TwitterListId)                     // twitter lists/destroy
}
