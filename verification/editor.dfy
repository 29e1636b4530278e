/**
 * The code editor page: the language picker, export to a local file, the
 * full-screen switch and deployment of the code as a new program.
 */
module Editor {
  import opened Wrappers
  import Pipeline

  /** The code a fresh editor, or one whose language just changed, starts with. */
  const Placeholder := "// Place your code here"

  const DeployError := "Error deploying program."

  /** The languages the picker offers and the extension each is saved under. */
  const KnownExtensions: map<string, string> := map["javascript" := "js", "python" := "py", "java" := "java"]

  /** The `switch (language)` in `handleExport`. */
  function ExportExtension(language: string): (ext: string)
    ensures ext == if language in KnownExtensions then KnownExtensions[language] else "txt"
  {
    if language == "javascript" then "js"
    else if language == "python" then "py"
    else if language == "java" then "java"
    else "txt"
  }

  /** The `switch (language)` in `handleConfirm`, written out a second time in the page. */
  function DeployExtension(language: string): (ext: string)
    ensures |ext| > 0 && '.' !in ext
  {
    match language
    case "javascript" => "js"
    case "python" => "py"
    case "java" => "java"
    case _ => "txt"
  }

  /** The two switches agree, so a program deploys under the extension it exports under. */
  lemma ExtensionsAgree(language: string)
    ensures DeployExtension(language) == ExportExtension(language)
    ensures '.' !in ExportExtension(language)
  {
  }

  /** ``${fileName}.${extension}``. */
  function ExportFileName(name: string, language: string): string {
    name + "." + ExportExtension(language)
  }

  /** The file name deployment uploads the code under. */
  function DeployFileName(language: string): string {
    "program." + DeployExtension(language)
  }

  /**
   * An exported or deployed file carries the dotted extension of its
   * language, which is what the pipeline page compares with a program's
   * input type.
   */
  lemma FileNamesCarryExtension(name: string, language: string)
    ensures Pipeline.Extension(ExportFileName(name, language)) == "." + ExportExtension(language)
    ensures Pipeline.Extension(DeployFileName(language)) == "." + ExportExtension(language)
  {
    ExtensionsAgree(language);
    Pipeline.ExtensionOfDotted(name, ExportExtension(language));
    Pipeline.ExtensionOfDotted("program", DeployExtension(language));
  }

  /** What `saveAs` receives. */
  datatype SavedFile = SavedFile(name: string, content: string)

  /** What `createProgram` receives. */
  datatype Upload = Upload(fileName: string, content: string, title: string, description: string)

  /** A file picked from disk, already read as text. */
  datatype LocalFile = LocalFile(name: string, text: string)

  class EditorView {
    var code: string
    var language: string
    var isFullScreen: bool
    var result: string
    var isModalOpen: bool
    var title: string
    var description: string
    var fileName: string

    constructor ()
      ensures code == Placeholder && language == "javascript" && !isFullScreen && result == ""
      ensures !isModalOpen && title == "" && description == "" && fileName == ""
    {
      code := Placeholder;
      language := "javascript";
      isFullScreen := false;
      result := "";
      isModalOpen := false;
      title := "";
      description := "";
      fileName := "";
    }

    /** `handleLanguageChange`: the code goes back to the placeholder. */
    method LanguageChange(value: string)
      modifies this`language, this`code
      ensures language == value && code == Placeholder
    {
      language := value;
      code := Placeholder;
    }

    /**
     * `handleExport`: `prompt` is `None` when the dialog is cancelled. A
     * cancelled or empty name saves nothing; otherwise the code is saved
     * under the name with the language's extension.
     */
    method Export(prompt: Option<string>) returns (saved: Option<SavedFile>)
      ensures saved.None? <==> prompt.None? || prompt.value == ""
      ensures saved.Some? ==> saved.value == SavedFile(ExportFileName(prompt.value, language), code)
    {
      if prompt.Some? && prompt.value != "" {
        saved := Some(SavedFile(ExportFileName(prompt.value, language), code));
      } else {
        saved := None;
      }
    }

    /** `handleFullScreenToggle`: two toggles in a row restore the layout. */
    method FullScreenToggle()
      modifies this`isFullScreen
      ensures isFullScreen == !old(isFullScreen)
    {
      isFullScreen := !isFullScreen;
    }

    /** `handleDeploy`: opens the title and description dialog. */
    method Deploy()
      modifies this`isModalOpen
      ensures isModalOpen
    {
      isModalOpen := true;
    }

    /** The dialog's cancel button. */
    method CancelModal()
      modifies this`isModalOpen
      ensures !isModalOpen
    {
      isModalOpen := false;
    }

    /**
     * `handleConfirm`: the dialog closes first; the code is uploaded as
     * `program.<ext>` with the title and description, and the result shows
     * the backend's answer, or the fixed error text when the call fails.
     */
    method Confirm(reply: Option<string>) returns (upload: Upload)
      modifies this`isModalOpen, this`result
      ensures !isModalOpen
      ensures upload == Upload(DeployFileName(language), code, title, description)
      ensures result == if reply.Some? then reply.value else DeployError
    {
      isModalOpen := false;
      upload := Upload(DeployFileName(language), code, title, description);
      result := if reply.Some? then reply.value else DeployError;
    }

    /** `handleFileSelect`: a picked file's name is shown and its text replaces the code. */
    method FileSelect(file: Option<LocalFile>)
      modifies this`fileName, this`code
      ensures file.None? ==> fileName == old(fileName) && code == old(code)
      ensures file.Some? ==> fileName == file.value.name && code == file.value.text
    {
      if file.Some? {
        fileName := file.value.name;
        code := file.value.text;
      }
    }
  }
}
