/**
 * The records of ServerApi/Database/Model.cs as they travel between client and server
 * (the [DataMember] properties). `Modified` and `Deleted` are not stored columns: every
 * lookup fills them in from the record's history.
 */
module Entities {
  import opened Wrappers

  /** DateTime as a tick count; 0 is DateTime.MinValue, the value of a DateTime nobody set. */
  type Time = int

  /** The default DateTime the records carry until someone sets one. */
  const MinTime: Time := 0

  /** BackedUpDirectory; `parentId` is None for a root. Depth is never read by the core and is left out. */
  datatype BackedUpDirectory = BackedUpDirectory(
    id: int, name: string, parentId: Option<int>, modified: Time, deleted: bool)

  /** BackedUpFile; identity within a directory is (parentId, name). */
  datatype BackedUpFile = BackedUpFile(
    id: int, name: string, parentId: int, modified: Time, deleted: bool)
}
