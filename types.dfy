/** Shared value types of the quiz app: optional values, results, problems and game modes. */
module Types {

  datatype Option<+T> = None | Some(value: T)

  datatype Result<+T, +E> = Ok(value: T) | Err(error: E)

  /** The four game modes offered by the configuration screen. */
  datatype GameMode = TreasureHunt | BalloonPop | MathRace | MathNinja

  /** One generated problem. `options` is present only when the request asked for it. */
  datatype Problem = Problem(question: string, answer: int, options: Option<seq<int>>)
}
