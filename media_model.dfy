/** The `media` table (app/models/media.py): metadata of an uploaded file.
    `created_at`/`updated_at` are left out. */
module MediaModel {
  import opened Outcomes
  import opened Columns
  import opened Foreign

  datatype Media = Media(
    userId: int,            // Integer, required, no foreign key
    originalName: string,   // String(255), required
    storedPath: string,     // String(1024), required
    mediaType: string,      // String(50), required
    uploadDate: Date,       // Date, required
    addedBy: Option<int>,   // Integer, nullable
    isDeleted: bool)        // Boolean, required, server default false

  predicate MediaValid(m: Media) {
    && IsInt32(m.userId)
    && FitsVarchar(m.originalName, 255)
    && FitsVarchar(m.storedPath, 1024)
    && FitsVarchar(m.mediaType, 50)
    && (m.addedBy.Some? ==> IsInt32(m.addedBy.value))
  }

  predicate MediaTableValid(media: map<int, Media>) {
    forall id | id in media :: MediaValid(media[id])
  }
}
