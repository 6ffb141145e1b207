/** Values shared by every part of the schedule-upload model. */
module Types {

  datatype Option<+T> = None | Some(value: T)

  datatype Result<+T, +E> = Success(value: T) | Failure(error: E)

  /** A calendar day, as obtained by parsing a column header. The model never looks inside it. */
  datatype Date = Date(year: int, month: int, day: int)

  /**
   * One normalised per-agent, per-day shift record. The identity cells are
   * copied from the sheet as they are (None for a missing cell); `code` is
   * always text because the normaliser stringifies it.
   */
  datatype Record = Record(
    code: string,
    agentName: Option<string>,
    email: Option<string>,
    gender: Option<string>,
    batch: Option<string>,
    skill: Option<string>,
    seniority: Option<string>,
    teamLeader: Option<string>,
    date: Date,
    shift: Option<string>)

  /** The failures the upload, duplicate-check and delete operations report. */
  datatype Error =
    | NoFileUploaded
    | NoFileSelected
    | InvalidFileType
    | MissingColumn(name: string)
    | TableNotFound
    | AgentRequired
}
