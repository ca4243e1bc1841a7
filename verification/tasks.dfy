/** The task record and the two input shapes the store accepts. The type
    definitions of the repository are not part of this model; the shapes
    below are the ones the store builds and reads. */
module Tasks {
  import opened Wrappers

  /** Task identifiers are opaque strings. */
  type Id = string

  /** A wall-clock instant, supplied by the caller instead of read from a clock. */
  type Timestamp = nat

  datatype Task = Task(
    id: Id,
    title: string,
    description: string,
    completed: bool,
    createdAt: Timestamp,
    updatedAt: Timestamp)

  /** Input to creation: a title and an optional description. */
  datatype CreateInput = CreateInput(title: string, description: Option<string>)

  /** Input to a partial update: each field is either supplied (Some, which
      includes `false` and the empty string) or omitted (None). */
  datatype UpdateInput = UpdateInput(
    title: Option<string>,
    description: Option<string>,
    completed: Option<bool>)

  /** An update that supplies no field at all. */
  const NoChanges: UpdateInput := UpdateInput(None, None, None)
}
