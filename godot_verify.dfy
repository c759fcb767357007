/** The older single-file copy of the parser. Its helpers, key/value extractor, section
    splitter, classifier, three heading builders and SceneFile are the same logic as the
    modules Helpers, KeyValues, Sections, Entities and ProjectFiles; only its ProjectFile
    differs, recording the path and reading nothing. */
module GodotVerify {
  class ProjectFile {
    var path: string

    /** ProjectFile(file_name) in the single-file copy. */
    constructor(fileName: string)
      ensures path == fileName
    {
      path := fileName;
    }
  }
}
