/** Shared value types of the learning engine. */
module Types {

  /** A value that may be absent (JavaScript `undefined` / `null`). */
  datatype Option<+T> = None | Some(value: T)

  /** A flashcard as the engine sees it: identity plus immutable content. */
  datatype Card = Card(id: string, front: string, back: string)
}
