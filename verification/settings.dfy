/** The exporter's settings record and the values it compares them against. */
module Settings {

  /** `ExtensionConfig`, passed explicitly instead of read from the workspace configuration. */
  datatype Config = Config(
    language: string,
    enableOnSave: bool,
    includeHiddenFiles: bool,
    maxFileSize: int,
    excludePatterns: seq<string>,
    outputFileName: string,
    outputFormat: string,
    notificationLevel: string)

  /** The placeholder an output-name template may hold for the workspace name. */
  const Placeholder: string := "{workspaceName}"

  /** The default `outputFileName` template, `{workspaceName}-output`. */
  const DefaultTemplate: string := Placeholder + "-output"

  /** The configuration a fresh installation reads. */
  const Defaults: Config :=
    Config("en", true, false, 1048576, [], DefaultTemplate, "both", "minimal")

  /** `outputFormat` is `both` or `txt`: a text file is produced and its name is reserved. */
  predicate WantsTxt(format: string) {
    format == "both" || format == "txt"
  }

  /** `outputFormat` is `both` or `md`. */
  predicate WantsMd(format: string) {
    format == "both" || format == "md"
  }
}
