/** The attachment record: the six properties every entity class used with the
    library exposes through getters and setters. */
module Entity {
  import opened Wrappers

  class Attachment {
    var storageIdentifier: Option<string>
    var slug: Option<string>
    var mimeType: Option<string>
    var extension: Option<string>
    var fileSize: int
    var originalName: Option<string>

    /** A freshly instantiated entity: nothing is set yet. */
    constructor ()
      ensures storageIdentifier == None && slug == None && mimeType == None
      ensures extension == None && fileSize == 0 && originalName == None
    {
      storageIdentifier, slug, mimeType := None, None, None;
      extension, fileSize, originalName := None, 0, None;
    }
  }
}
