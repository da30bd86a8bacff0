/** The three analysis stages (main.py:45-153). Each wraps one request to the chat-completion
    service; the file system and the service are parameters, so a stage is a function of
    what they answer. */
module Stages {
  import opened Wrappers

  /** The model each stage asks for (main.py:71, 101, 146). */
  const QualityModel: string := "llama3-8b-8192"
  const SecurityModel: string := "llama3-8b-8192"
  const RefactorModel: string := "llama3-70b-8192"

  /** A prompt, as the inputs it is built from; its fixed wording is not modelled. */
  datatype Prompt =
    | QualityPrompt(code: string)
    | SecurityPrompt(code: string)
    | RefactorPrompt(code: string, qualityReport: string, securityReport: string)

  /** What one service request does: it raises (network, quota or malformed-response errors,
      all caught by the stage), or returns the first choice's message content, which may be
      missing. */
  datatype Reply = Raised | Returned(content: Option<string>)

  /** The chat-completion service: the reply to a prompt sent with a model name. */
  type Service = (Prompt, string) -> Reply

  /** Reading a file as UTF-8 text: `None` when it cannot be opened or decoded. */
  type Reader = string -> Option<string>

  /** Python truthiness of an optional string: `None` and `""` are both false. */
  predicate Truthy(s: Option<string>) {
    s.Some? && s.value != ""
  }

  /** `quality_analyst_agent`'s pair `(quality_report, original_code)`. */
  datatype QualityOutcome = QualityOutcome(report: Option<string>, code: Option<string>)

  /** `quality_analyst_agent(file_path)` (main.py:45-80). */
  function QualityAnalyst(path: string, read: Reader, service: Service): (r: QualityOutcome)
    ensures read(path).None? ==> r == QualityOutcome(None, None)
    ensures r.code.Some? ==> r.code == read(path)
    ensures r.code.Some? ==> service(QualityPrompt(r.code.value), QualityModel) == Returned(r.report)
    ensures r.code.None? ==> r.report.None?
    ensures read(path).Some? && service(QualityPrompt(read(path).value), QualityModel) == Raised
      ==> r == QualityOutcome(None, None)
    ensures read(path).Some? && service(QualityPrompt(read(path).value), QualityModel).Returned?
      ==> r == QualityOutcome(service(QualityPrompt(read(path).value), QualityModel).content, read(path))
  {
    match read(path)
    case None => QualityOutcome(None, None)
    case Some(code) =>
      match service(QualityPrompt(code), QualityModel)
      case Raised => QualityOutcome(None, None)
      case Returned(text) => QualityOutcome(text, Some(code))
  }

  /** `security_specialist_agent(file_path, code_content)` (main.py:82-110); the path is
      used only in messages. */
  function SecurityAnalyst(path: string, code: string, service: Service): (r: Option<string>)
    ensures r.Some? ==> service(SecurityPrompt(code), SecurityModel) == Returned(r)
    ensures service(SecurityPrompt(code), SecurityModel) == Raised ==> r.None?
    ensures service(SecurityPrompt(code), SecurityModel).Returned?
      ==> r == service(SecurityPrompt(code), SecurityModel).content
  {
    match service(SecurityPrompt(code), SecurityModel)
    case Raised => None
    case Returned(text) => text
  }

  /** `chief_refactorer_agent(original_code, quality_report, security_report)` (main.py:112-153). */
  function ChiefRefactorer(code: string, qualityReport: string, securityReport: string,
                           service: Service): (r: Option<string>)
    ensures r.Some? ==>
      service(RefactorPrompt(code, qualityReport, securityReport), RefactorModel) == Returned(r)
    ensures service(RefactorPrompt(code, qualityReport, securityReport), RefactorModel) == Raised
      ==> r.None?
    ensures service(RefactorPrompt(code, qualityReport, securityReport), RefactorModel).Returned?
      ==> r == service(RefactorPrompt(code, qualityReport, securityReport), RefactorModel).content
  {
    match service(RefactorPrompt(code, qualityReport, securityReport), RefactorModel)
    case Raised => None
    case Returned(text) => text
  }

  /** A file that cannot be read or decoded never yields a report or code to pass on, and
      neither does one whose quality request raised; so neither reaches the security stage. */
  lemma UnreadableFileStops(path: string, read: Reader, service: Service)
    requires read(path).None? || service(QualityPrompt(read(path).value), QualityModel) == Raised
    ensures !Truthy(QualityAnalyst(path, read, service).code)
    ensures !Truthy(QualityAnalyst(path, read, service).report)
  {
  }
}
