/** Requests, responses and errors of internal/backend, as immutable values. */
module Backend {
  import opened Text
  import opened Wrappers

  /** A Go map of strings, where None is the nil map. */
  type Metadata = Option<map<string, string>>

  datatype Request = Request(
    id: string, input: string, deviceID: string, alias: string, personID: string, profileID: string,
    modelID: string, backendID: string, modelName: string, systemPrompt: string, metadata: Metadata)

  /** A status is a string in the program, so others than the three known ones can occur. */
  datatype Status = Completed | Accepted | Failed | OtherStatus(name: string)

  datatype Usage = Usage(inputTokens: int, outputTokens: int)

  datatype Response = Response(
    id: string, output: string, status: Status, taskID: string, usage: Option<Usage>, metadata: Metadata)

  /** The errors that errors.Is is asked about. */
  datatype Sentinel =
    | InvalidRequest | Unsupported | InvocationFailed | Temporary | Unauthorized | ContextCanceled | DeadlineExceeded

  /** An error: its text, and every sentinel that errors.Is finds in its chain. */
  datatype Error = Error(text: string, wraps: set<Sentinel>)

  datatype RequestField = InputField | PersonField | ProfileField | ModelField | BackendField | ModelNameField

  function Field(r: Request, f: RequestField): string {
    match f
    case InputField => r.input
    case PersonField => r.personID
    case ProfileField => r.profileID
    case ModelField => r.modelID
    case BackendField => r.backendID
    case ModelNameField => r.modelName
  }

  /** The place of a field in the order in which they are checked. */
  function Place(f: RequestField): nat {
    match f
    case InputField => 0
    case PersonField => 1
    case ProfileField => 2
    case ModelField => 3
    case BackendField => 4
    case ModelNameField => 5
  }

  /** Request.Validate: the first required field that is blank. */
  function Validate(r: Request): (missing: Option<RequestField>)
    ensures missing.None? <==> forall f: RequestField :: !IsBlank(Field(r, f))
    ensures missing.Some? ==>
              && IsBlank(Field(r, missing.value))
              && forall f: RequestField | Place(f) < Place(missing.value) :: !IsBlank(Field(r, f))
  {
    if IsBlank(r.input) then assert IsBlank(Field(r, InputField)); Some(InputField)
    else if IsBlank(r.personID) then assert IsBlank(Field(r, PersonField)); Some(PersonField)
    else if IsBlank(r.profileID) then assert IsBlank(Field(r, ProfileField)); Some(ProfileField)
    else if IsBlank(r.modelID) then assert IsBlank(Field(r, ModelField)); Some(ModelField)
    else if IsBlank(r.backendID) then assert IsBlank(Field(r, BackendField)); Some(BackendField)
    else if IsBlank(r.modelName) then assert IsBlank(Field(r, ModelNameField)); Some(ModelNameField)
    else None
  }
}
